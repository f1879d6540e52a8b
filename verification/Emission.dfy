/** The emission loop: scopes are opened and closed on a stack while the blocks are
    written in order, with two guards that refuse what could not be written. */
module Emission {
  import opened Cfg
  import opened StructuredCode
  import opened Terminators
  import opened Layout
  import opened Simulation
  import opened Wrappers

  datatype Kind = Loop(maxRank: nat) | Landing
  datatype Frame = Frame(name: Block, kind: Kind)

  datatype Error = CrossingScopes | NoActiveLabel
  datatype Result<T> = Ok(value: T) | Err(error: Error)

  function BeginOp(fr: Frame): (op: Op)
    ensures op.Opens() && NameOf(op) == fr.name
  {
    if fr.kind.Loop? then LoopBegin(fr.name) else BlockBegin(fr.name)
  }

  function EndOp(fr: Frame): (op: Op)
    ensures op.Closes() && Pairs(BeginOp(fr), op)
  {
    if fr.kind.Loop? then LoopEnd else BlockEnd(fr.name)
  }

  function FrameNames(stack: seq<Frame>): (r: seq<Block>)
    ensures |r| == |stack|
  {
    seq(|stack|, j requires 0 <= j < |stack| => stack[j].name)
  }

  // ---- the stack mirrors the open scopes ----

  ghost predicate Tracks(ops: seq<Op>, stack: seq<Frame>) {
    && WellNested(ops)
    && |stack| == |Enclosing(ops, |ops|)|
    && forall j :: 0 <= j < |stack| ==> ops[Enclosing(ops, |ops|)[j]] == BeginOp(stack[j])
  }

  lemma NestedExtend(ops: seq<Op>, op: Op)
    requires WellNested(ops)
    requires op.Closes() ==> var s := Enclosing(ops, |ops|); s != [] && Pairs(ops[s[|s| - 1]], op)
    ensures WellNested(ops + [op])
  {
    hide Enclosing;
    var more := ops + [op];
    forall e | 0 <= e < |more| && more[e].Closes()
      ensures var s := Enclosing(more, e); s != [] && Pairs(more[s[|s| - 1]], more[e])
    {
      EnclosingPrefix(ops, [op], e);
      if e < |ops| { NestedAt(ops, e); }
    }
  }

  lemma EnclosingAppend(ops: seq<Op>, op: Op)
    ensures var s := Enclosing(ops, |ops|);
            Enclosing(ops + [op], |ops| + 1) == if op.Opens() then s + [|ops|]
                                                else if op.Closes() && s != [] then s[..|s| - 1]
                                                else s
  {
    hide Enclosing;
    EnclosingPrefix(ops, [op], |ops|);
    EnclosingStep(ops + [op], |ops|);
  }

  lemma PushTracks(ops: seq<Op>, stack: seq<Frame>, fr: Frame)
    requires Tracks(ops, stack)
    ensures Tracks(ops + [BeginOp(fr)], stack + [fr])
  {
    hide Enclosing, WellNested;
    NestedExtend(ops, BeginOp(fr));
    EnclosingAppend(ops, BeginOp(fr));
  }

  lemma PopTracks(ops: seq<Op>, stack: seq<Frame>)
    requires Tracks(ops, stack) && stack != []
    ensures Tracks(ops + [EndOp(stack[|stack| - 1])], stack[..|stack| - 1])
  {
    hide Enclosing, WellNested;
    var op := EndOp(stack[|stack| - 1]);
    NestedExtend(ops, op);
    EnclosingAppend(ops, op);
  }

  lemma {:induction false} FlatTracks(ops: seq<Op>, stack: seq<Frame>, more: seq<Op>)
    requires Tracks(ops, stack) && forall x :: 0 <= x < |more| ==> !more[x].Structural()
    ensures Tracks(ops + more, stack)
    decreases |more|
  {
    hide Enclosing, WellNested;
    if more == [] {
      assert ops + more == ops;
    } else {
      NestedExtend(ops, more[0]);
      EnclosingAppend(ops, more[0]);
      FlatTracks(ops + [more[0]], stack, more[1..]);
      assert (ops + [more[0]]) + more[1..] == ops + more;
    }
  }

  lemma TrackedNames(ops: seq<Op>, stack: seq<Frame>)
    requires Tracks(ops, stack)
    ensures NamesAt(ops, |ops|) == FrameNames(stack)
  {
    hide Enclosing, WellNested;
  }

  // ---- what has been written so far ----

  /** From p only scope begins and ends lead to the content of block b, which may be
      the one to be written next. */
  ghost predicate Heads(pl: Plan, ops: seq<Op>, pcs: seq<nat>, p: nat, b: Block) {
    && b in pl.rank && p <= |ops|
    && if pl.rank[b] < |pcs| then LeadsTo(pl, ops, pcs, p, b)
       else pl.rank[b] == |pcs| && AllStructural(ops, p, |ops|)
  }

  /** Where the last block's branch operations end. */
  ghost function Resume(pl: Plan, ops: seq<Op>, pcs: seq<nat>): nat
    requires pl.Valid() && |pcs| <= |pl.order| && forall k :: 0 <= k < |pcs| ==> BlockAt(pl, ops, pcs, k)
  {
    if pcs == [] then 0
    else var k := |pcs| - 1;
      assert BlockAt(pl, ops, pcs, k);
      pcs[k] + 1 + |Tail(pl, k, NamesAt(ops, pcs[k]))|
  }

  ghost predicate Written(pl: Plan, ops: seq<Op>, pcs: seq<nat>) {
    && pl.Valid() && |pcs| <= |pl.order|
    && (forall k :: 0 <= k < |pcs| ==> BlockAt(pl, ops, pcs, k))
    && Resume(pl, ops, pcs) <= |ops| && AllStructural(ops, Resume(pl, ops, pcs), |ops|)
    && Heads(pl, ops, pcs, 0, pl.order[0])
    && (forall e :: 0 <= e < |ops| && ops[e].BlockEnd? && ops[e].landing in pl.rank ==>
          Heads(pl, ops, pcs, e + 1, ops[e].landing))
    && (forall b :: 0 <= b < |ops| && ops[b].LoopBegin? ==> Heads(pl, ops, pcs, b, ops[b].header))
  }

  /** A block scope on the stack is for a block still to come, or the shared return;
      the shared return stays at the bottom. */
  ghost predicate Pending(pl: Plan, ops: seq<Op>, pcs: seq<nat>, stack: seq<Frame>) {
    && (forall j :: 0 <= j < |stack| && stack[j].kind.Landing? && stack[j].name in pl.rank ==>
          pl.rank[stack[j].name] >= |pcs|)
    && (forall j :: 0 <= j < |stack| ==> stack[j].name in pl.rank || (j == 0 && pl.epilogue == Some(stack[j].name)))
    && (pl.epilogue.Some? ==>
          && stack != [] && stack[0] == Frame(pl.epilogue.value, Landing)
          && (forall k :: 0 <= k < |pcs| ==> pcs[k] <= |ops| && pl.epilogue.value in NamesAt(ops, pcs[k]))
          && (forall e :: 0 <= e < |ops| ==> ops[e] != BlockEnd(pl.epilogue.value)))
  }

  ghost predicate State(pl: Plan, ops: seq<Op>, pcs: seq<nat>, stack: seq<Frame>) {
    Tracks(ops, stack) && Written(pl, ops, pcs) && Pending(pl, ops, pcs, stack)
  }

  lemma NamesExtend(ops: seq<Op>, more: seq<Op>, p: nat)
    requires p <= |ops|
    ensures NamesAt(ops + more, p) == NamesAt(ops, p)
  {
    hide Enclosing;
    EnclosingPrefix(ops, more, p);
    assert forall j :: 0 <= j < |Enclosing(ops, p)| ==> (ops + more)[Enclosing(ops, p)[j]] == ops[Enclosing(ops, p)[j]];
  }

  lemma BlockAtExtend(pl: Plan, ops: seq<Op>, more: seq<Op>, pcs: seq<nat>, k: nat)
    requires pl.Valid() && k < |pcs| <= |pl.order| && BlockAt(pl, ops, pcs, k)
    ensures BlockAt(pl, ops + more, pcs, k)
  {
    hide Enclosing, Tail;
    NamesExtend(ops, more, pcs[k]);
    var p, tail := pcs[k], Tail(pl, k, NamesAt(ops, pcs[k]));
    assert (ops + more)[p + 1..p + 1 + |tail|] == ops[p + 1..p + 1 + |tail|];
  }

  lemma HeadsExtend(pl: Plan, ops: seq<Op>, op: Op, pcs: seq<nat>, p: nat, b: Block)
    requires Heads(pl, ops, pcs, p, b) && op.Structural()
    ensures Heads(pl, ops + [op], pcs, p, b)
  {
  }

  /** A scope begin or end keeps everything written before it in place. */
  lemma StructuralExtend(pl: Plan, ops: seq<Op>, op: Op, pcs: seq<nat>)
    requires Written(pl, ops, pcs) && op.Structural()
    requires op.BlockEnd? && op.landing in pl.rank ==> pl.rank[op.landing] == |pcs|
    requires op.LoopBegin? ==> op.header in pl.rank && pl.rank[op.header] == |pcs|
    ensures Written(pl, ops + [op], pcs)
  {
    hide BlockAt, Heads, Tail, NamesAt;
    var more := ops + [op];
    forall k | 0 <= k < |pcs| ensures BlockAt(pl, more, pcs, k) {
      BlockAtExtend(pl, ops, [op], pcs, k);
    }
    ResumeExtend(pl, ops, [op], pcs);
    HeadsExtend(pl, ops, op, pcs, 0, pl.order[0]);
    forall e | 0 <= e < |more| && more[e].BlockEnd? && more[e].landing in pl.rank
      ensures Heads(pl, more, pcs, e + 1, more[e].landing)
    {
      if e < |ops| {
        HeadsExtend(pl, ops, op, pcs, e + 1, more[e].landing);
      } else {
        HeadsNew(pl, more, pcs, e + 1, op.landing);
      }
    }
    forall b | 0 <= b < |more| && more[b].LoopBegin? ensures Heads(pl, more, pcs, b, more[b].header) {
      if b < |ops| { HeadsExtend(pl, ops, op, pcs, b, more[b].header); } else { HeadsNew(pl, more, pcs, b, op.header); }
    }
  }

  lemma HeadsNew(pl: Plan, ops: seq<Op>, pcs: seq<nat>, p: nat, b: Block)
    requires b in pl.rank && pl.rank[b] == |pcs| && p <= |ops| && AllStructural(ops, p, |ops|)
    ensures Heads(pl, ops, pcs, p, b)
  {
  }

  lemma ResumeExtend(pl: Plan, ops: seq<Op>, more: seq<Op>, pcs: seq<nat>)
    requires pl.Valid() && |pcs| <= |pl.order|
    requires forall k :: 0 <= k < |pcs| ==> BlockAt(pl, ops, pcs, k)
    requires forall k :: 0 <= k < |pcs| ==> BlockAt(pl, ops + more, pcs, k)
    ensures Resume(pl, ops + more, pcs) == Resume(pl, ops, pcs)
  {
    hide Tail, Enclosing;
    if pcs != [] {
      assert BlockAt(pl, ops, pcs, |pcs| - 1);
      NamesExtend(ops, more, pcs[|pcs| - 1]);
    }
  }

  // ---- the steps of the loop ----

  lemma OpenStep(pl: Plan, ops: seq<Op>, pcs: seq<nat>, stack: seq<Frame>, fr: Frame)
    requires State(pl, ops, pcs, stack) && fr.name in pl.rank
    requires if fr.kind.Loop? then pl.rank[fr.name] == |pcs| else pl.rank[fr.name] > |pcs|
    ensures State(pl, ops + [BeginOp(fr)], pcs, stack + [fr])
  {
    hide Tracks, Written, NamesAt;
    PushTracks(ops, stack, fr);
    StructuralExtend(pl, ops, BeginOp(fr), pcs);
    forall k | 0 <= k < |pcs| && pcs[k] <= |ops|
      ensures NamesAt(ops + [BeginOp(fr)], pcs[k]) == NamesAt(ops, pcs[k])
    {
      NamesExtend(ops, [BeginOp(fr)], pcs[k]);
    }
  }

  /** Whether the innermost scope is done when block i comes next. */
  predicate Done(rank: map<Block, nat>, order: seq<Block>, fr: Frame, i: nat)
    requires i < |order|
  {
    match fr.kind
    case Loop(maxRank) => maxRank < i
    case Landing => fr.name == order[i] || (fr.name in rank && rank[fr.name] < i)
  }

  lemma CloseStep(pl: Plan, ops: seq<Op>, pcs: seq<nat>, stack: seq<Frame>)
    requires State(pl, ops, pcs, stack) && stack != []
    requires var fr := stack[|stack| - 1]; fr.name in pl.rank && (fr.kind.Landing? ==> pl.rank[fr.name] == |pcs|)
    ensures State(pl, ops + [EndOp(stack[|stack| - 1])], pcs, stack[..|stack| - 1])
  {
    hide Tracks, Written, NamesAt;
    var op := EndOp(stack[|stack| - 1]);
    WrittenValid(pl, ops, pcs);
    PopTracks(ops, stack);
    StructuralExtend(pl, ops, op, pcs);
    forall k | 0 <= k < |pcs| && pcs[k] <= |ops|
      ensures NamesAt(ops + [op], pcs[k]) == NamesAt(ops, pcs[k])
    {
      NamesExtend(ops, [op], pcs[k]);
    }
  }

  /** A scope that is done when block i comes next is a loop, or the landing of i itself. */
  lemma DoneFrame(pl: Plan, ops: seq<Op>, pcs: seq<nat>, stack: seq<Frame>)
    requires State(pl, ops, pcs, stack) && stack != [] && |pcs| < |pl.order|
    requires Done(pl.rank, pl.order, stack[|stack| - 1], |pcs|)
    ensures var fr := stack[|stack| - 1]; fr.name in pl.rank && (fr.kind.Landing? ==> pl.rank[fr.name] == |pcs|)
  {
    hide Tracks, NamesAt, BlockAt, Heads, Resume;
  }

  /** Every successor of block i has a name among `names`. */
  ghost predicate Labelled(pl: Plan, i: nat, names: seq<Block>)
    requires pl.Valid() && i < |pl.order|
  {
    OrderedSuccessors(pl, i);
    forall s :: s in Successors(pl.f[pl.order[i]]) ==> s in names
  }

  /** Content and branch operations of the next block. */
  ghost function Body(pl: Plan, i: nat, stack: seq<Frame>): seq<Op>
    requires pl.Valid() && i < |pl.order|
  {
    [BlockContent(pl.order[i])] + Tail(pl, i, FrameNames(stack))
  }

  lemma BodyFlat(pl: Plan, i: nat, stack: seq<Frame>)
    requires pl.Valid() && i < |pl.order|
    ensures forall x :: 0 <= x < |Body(pl, i, stack)| ==> !Body(pl, i, stack)[x].Structural()
  {
    OrderedSuccessors(pl, i);
    TerminatorOpsFlat(pl.f[pl.order[i]], pl.order[i], pl.rank, FrameNames(stack), pl.epilogue);
  }

  lemma HeadsBody(pl: Plan, ops: seq<Op>, body: seq<Op>, pcs: seq<nat>, p: nat, b: Block)
    requires Heads(pl, ops, pcs, p, b)
    ensures Heads(pl, ops + body, pcs + [|ops|], p, b)
  {
  }

  lemma NewBlockAt(pl: Plan, ops: seq<Op>, pcs: seq<nat>, stack: seq<Frame>)
    requires Tracks(ops, stack) && pl.Valid() && |pcs| < |pl.order|
    requires Labelled(pl, |pcs|, FrameNames(stack))
    ensures BlockAt(pl, ops + Body(pl, |pcs|, stack), pcs + [|ops|], |pcs|)
  {
    hide Tracks, Tail, Enclosing, NamesAt, Ranks, Closed;
    var body := Body(pl, |pcs|, stack);
    var p, more := |ops|, ops + body;
    TrackedNames(ops, stack);
    NamesExtend(ops, body, p);
    var tail := Tail(pl, |pcs|, NamesAt(more, p));
    assert body == [BlockContent(pl.order[|pcs|])] + tail;
    assert more[p] == body[0] && |more| == p + 1 + |tail|;
    assert more[p + 1..p + 1 + |tail|] == tail;
  }

  /** The block before the new one now has its next content. */
  lemma OldBlockAt(pl: Plan, ops: seq<Op>, body: seq<Op>, pcs: seq<nat>, k: nat)
    requires Written(pl, ops, pcs) && k < |pcs| < |pl.order|
    ensures BlockAt(pl, ops + body, pcs + [|ops|], k)
  {
    hide Tail, Enclosing, Heads, NamesAt;
    assert BlockAt(pl, ops, pcs, k);
    BlockAtExtend(pl, ops, body, pcs, k);
    NamesExtend(ops, body, pcs[k]);
  }

  lemma BodyWritten(pl: Plan, ops: seq<Op>, pcs: seq<nat>, stack: seq<Frame>)
    requires Tracks(ops, stack) && Written(pl, ops, pcs) && pl.Valid() && |pcs| < |pl.order|
    requires Labelled(pl, |pcs|, FrameNames(stack))
    ensures Written(pl, ops + Body(pl, |pcs|, stack), pcs + [|ops|])
  {
    hide BlockAt, Heads, Tail, NamesAt, Tracks, Enclosing;
    var body := Body(pl, |pcs|, stack);
    var more, pcs' := ops + body, pcs + [|ops|];
    NewBlockAt(pl, ops, pcs, stack);
    forall k | 0 <= k < |pcs'| ensures BlockAt(pl, more, pcs', k) {
      if k < |pcs| { OldBlockAt(pl, ops, body, pcs, k); }
    }
    BodyFlat(pl, |pcs|, stack);
    BodyResume(pl, ops, pcs, stack);
    HeadsBody(pl, ops, body, pcs, 0, pl.order[0]);
    forall e | 0 <= e < |more| && more[e].BlockEnd? && more[e].landing in pl.rank
      ensures Heads(pl, more, pcs', e + 1, more[e].landing)
    {
      assert e < |ops|;
      HeadsBody(pl, ops, body, pcs, e + 1, more[e].landing);
    }
    forall b | 0 <= b < |more| && more[b].LoopBegin? ensures Heads(pl, more, pcs', b, more[b].header) {
      assert b < |ops|;
      HeadsBody(pl, ops, body, pcs, b, more[b].header);
    }
  }

  lemma BodyResume(pl: Plan, ops: seq<Op>, pcs: seq<nat>, stack: seq<Frame>)
    requires Tracks(ops, stack) && pl.Valid() && |pcs| < |pl.order|
    requires forall k :: 0 <= k <= |pcs| ==> BlockAt(pl, ops + Body(pl, |pcs|, stack), pcs + [|ops|], k)
    ensures Resume(pl, ops + Body(pl, |pcs|, stack), pcs + [|ops|]) == |ops + Body(pl, |pcs|, stack)|
  {
    hide Tail, Enclosing, Tracks;
    TrackedNames(ops, stack);
    NamesExtend(ops, Body(pl, |pcs|, stack), |ops|);
  }

  /** The guards hold: the next block can be written. */
  lemma BodyStep(pl: Plan, ops: seq<Op>, pcs: seq<nat>, stack: seq<Frame>)
    requires State(pl, ops, pcs, stack) && pl.Valid() && |pcs| < |pl.order|
    requires forall j :: 0 <= j < |stack| && stack[j].kind.Landing? && stack[j].name in pl.rank ==>
               pl.rank[stack[j].name] > |pcs|
    requires Labelled(pl, |pcs|, FrameNames(stack))
    ensures State(pl, ops + Body(pl, |pcs|, stack), pcs + [|ops|], stack)
  {
    hide Tracks, Written, NamesAt, Body;
    var body := Body(pl, |pcs|, stack);
    BodyFlat(pl, |pcs|, stack);
    FlatTracks(ops, stack, body);
    BodyWritten(pl, ops, pcs, stack);
    TrackedNames(ops, stack);
    forall k | 0 <= k <= |pcs| && (pcs + [|ops|])[k] <= |ops|
      ensures NamesAt(ops + body, (pcs + [|ops|])[k]) == NamesAt(ops, (pcs + [|ops|])[k])
    {
      NamesExtend(ops, body, (pcs + [|ops|])[k]);
    }
    if pl.epilogue.Some? {
      assert FrameNames(stack)[0] == pl.epilogue.value;
    }
  }

  lemma WrittenValid(pl: Plan, ops: seq<Op>, pcs: seq<nat>)
    requires Written(pl, ops, pcs)
    ensures pl.Valid() && |pcs| <= |pl.order|
  {
  }

  // ---- which scopes open where ----

  /** For each loop header the last rank of its body, for each landing the rank its scope opens at. */
  datatype Scopes = Scopes(loopMax: map<Block, nat>, starts: map<Block, nat>)

  ghost predicate ScopesValid(pl: Plan, sc: Scopes) {
    && (forall t :: t in sc.starts ==> t in pl.rank && sc.starts[t] < pl.rank[t])
    && (forall h :: h in sc.loopMax ==> h in pl.rank)
  }

  /** The landings opened at rank i, the farthest first. */
  function Opening(order: seq<Block>, starts: map<Block, nat>, i: nat, hi: nat): seq<Block>
    requires hi <= |order|
  {
    if hi == 0 then []
    else
      var t := order[hi - 1];
      (if t in starts && starts[t] == i then [t] else []) + Opening(order, starts, i, hi - 1)
  }

  lemma {:induction false} OpeningExact(pl: Plan, sc: Scopes, i: nat, hi: nat, t: Block)
    requires pl.Valid() && hi <= |pl.order|
    ensures t in Opening(pl.order, sc.starts, i, hi) <==>
            t in sc.starts && sc.starts[t] == i && t in pl.rank && pl.rank[t] < hi
  {
    if hi > 0 {
      OpeningExact(pl, sc, i, hi - 1, t);
      assert pl.rank[pl.order[hi - 1]] == hi - 1;
    }
  }

  lemma {:induction false} OpeningDescends(pl: Plan, sc: Scopes, i: nat, hi: nat, a: nat, b: nat)
    requires pl.Valid() && hi <= |pl.order|
    requires a < b < |Opening(pl.order, sc.starts, i, hi)|
    ensures var ts := Opening(pl.order, sc.starts, i, hi);
            ts[a] in pl.rank && ts[b] in pl.rank && pl.rank[ts[a]] > pl.rank[ts[b]]
  {
    assert hi > 0;
    var t, rest, all := pl.order[hi - 1], Opening(pl.order, sc.starts, i, hi - 1), Opening(pl.order, sc.starts, i, hi);
    assert t in pl.rank && pl.rank[t] == hi - 1;
    var here := t in sc.starts && sc.starts[t] == i;
    assert all == (if here then [t] else []) + rest;
    hide Opening, Ranks, Closed;
    if !here {
      OpeningDescends(pl, sc, i, hi - 1, a, b);
    } else if a > 0 {
      OpeningDescends(pl, sc, i, hi - 1, a - 1, b - 1);
    } else {
      assert rest[b - 1] in rest;
      OpeningExact(pl, sc, i, hi - 1, rest[b - 1]);
    }
  }

  /** A landing that leaves the loop headed by block i must surround the loop. */
  predicate Leaves(pl: Plan, sc: Scopes, i: nat, t: Block)
    requires i < |pl.order| && t in pl.rank
  {
    pl.order[i] in sc.loopMax && pl.rank[t] > sc.loopMax[pl.order[i]]
  }

  function Keep(pl: Plan, sc: Scopes, i: nat, ts: seq<Block>, leaving: bool): seq<Frame>
    requires i < |pl.order| && forall k :: 0 <= k < |ts| ==> ts[k] in pl.rank
  {
    if ts == [] then []
    else
      var t := ts[|ts| - 1];
      Keep(pl, sc, i, ts[..|ts| - 1], leaving) + if Leaves(pl, sc, i, t) == leaving then [Frame(t, Landing)] else []
  }

  function LoopFrame(pl: Plan, sc: Scopes, i: nat): seq<Frame>
    requires i < |pl.order|
  {
    var b := pl.order[i];
    if b in sc.loopMax then [Frame(b, Loop(sc.loopMax[b]))] else []
  }

  lemma {:induction false} KeepExact(pl: Plan, sc: Scopes, i: nat, ts: seq<Block>, leaving: bool, fr: Frame)
    requires i < |pl.order| && forall k :: 0 <= k < |ts| ==> ts[k] in pl.rank
    ensures fr in Keep(pl, sc, i, ts, leaving) <==>
            fr.kind.Landing? && fr.name in ts && Leaves(pl, sc, i, fr.name) == leaving
  {
    if ts != [] {
      var t := ts[|ts| - 1];
      KeepExact(pl, sc, i, ts[..|ts| - 1], leaving, fr);
      assert ts == ts[..|ts| - 1] + [t];
    }
  }

  // ---- when nothing crosses ----

  /** The rank at which a scope is closed; the shared return never is. */
  function EndOf(pl: Plan, fr: Frame): nat {
    match fr.kind
    case Loop(maxRank) => maxRank + 1
    case Landing => if fr.name in pl.rank then pl.rank[fr.name] else |pl.order| + 1
  }

  /** Scopes that open later end no later, every forward edge has its landing open at
      its source, and every backward edge goes to the header of a loop around its source. */
  ghost predicate Laminar(pl: Plan, sc: Scopes)
    requires pl.Valid() && ScopesValid(pl, sc)
  {
    && (forall t, u :: t in sc.starts && u in sc.starts ==>
          !(sc.starts[t] < sc.starts[u] < pl.rank[t] < pl.rank[u]))
    && (forall h, t :: h in sc.loopMax && t in sc.starts ==>
          !(pl.rank[h] < sc.starts[t] <= sc.loopMax[h] < pl.rank[t]))
    && (forall h, t :: h in sc.loopMax && t in sc.starts ==>
          !(sc.starts[t] < pl.rank[h] < pl.rank[t] <= sc.loopMax[h]))
    && (forall h, g :: h in sc.loopMax && g in sc.loopMax ==>
          !(pl.rank[h] < pl.rank[g] <= sc.loopMax[h] < sc.loopMax[g]))
    && (forall h :: h in sc.loopMax ==> sc.loopMax[h] < |pl.order|)
    && (forall i, t :: 0 <= i < |pl.order| && EdgeTo(pl, i, t) ==>
          if pl.rank[t] > i then t in sc.starts && sc.starts[t] <= i else t in sc.loopMax && sc.loopMax[t] >= i)
  }

  ghost predicate EdgeTo(pl: Plan, i: nat, t: Block)
    requires pl.Valid() && i < |pl.order|
    ensures EdgeTo(pl, i, t) ==> t in pl.rank
  {
    OrderedSuccessors(pl, i);
    t in Successors(pl.f[pl.order[i]])
  }

  ghost predicate Sorted(pl: Plan, stack: seq<Frame>) {
    forall j, l :: 0 <= j < l < |stack| ==> EndOf(pl, stack[j]) >= EndOf(pl, stack[l])
  }

  /** A scope opened before rank i. */
  ghost predicate OpenedBefore(pl: Plan, sc: Scopes, i: nat, fr: Frame) {
    match fr.kind
    case Loop(m) => fr.name in sc.loopMax && m == sc.loopMax[fr.name] && fr.name in pl.rank && pl.rank[fr.name] < i
    case Landing => fr.name !in pl.rank || (fr.name in sc.starts && sc.starts[fr.name] < i)
  }

  /** The stack holds, innermost last, the scopes opened before rank i that end at `lo` or later. */
  ghost predicate Orderly(pl: Plan, sc: Scopes, i: nat, lo: nat, stack: seq<Frame>)
    requires ScopesValid(pl, sc)
  {
    && Sorted(pl, stack)
    && (forall j :: 0 <= j < |stack| ==> OpenedBefore(pl, sc, i, stack[j]))
    && (forall t :: t in sc.starts && sc.starts[t] < i && pl.rank[t] >= lo ==> Frame(t, Landing) in stack)
    && (forall h :: h in sc.loopMax && pl.rank[h] < i && sc.loopMax[h] + 1 >= lo ==>
          Frame(h, Loop(sc.loopMax[h])) in stack)
  }

  /** The frames opened at block i: landings that leave its loop, the loop, the others. */
  function NewFrames(pl: Plan, sc: Scopes, i: nat, ts: seq<Block>): seq<Frame>
    requires i < |pl.order| && forall k :: 0 <= k < |ts| ==> ts[k] in pl.rank
  {
    Keep(pl, sc, i, ts, true) + LoopFrame(pl, sc, i) + Keep(pl, sc, i, ts, false)
  }

  lemma DoneIsEnded(pl: Plan, fr: Frame, i: nat)
    requires pl.Valid() && i < |pl.order| && (fr.name in pl.rank || fr.kind.Landing?)
    ensures Done(pl.rank, pl.order, fr, i) <==> EndOf(pl, fr) <= i
  {
  }

  lemma PopOrderly(pl: Plan, sc: Scopes, i: nat, stack: seq<Frame>)
    requires ScopesValid(pl, sc) && Orderly(pl, sc, i, i + 1, stack) && stack != []
    requires EndOf(pl, stack[|stack| - 1]) <= i
    ensures Orderly(pl, sc, i, i + 1, stack[..|stack| - 1])
  {
    var rest, fr := stack[..|stack| - 1], stack[|stack| - 1];
    assert stack == rest + [fr];
  }

  lemma TopBoundsAll(pl: Plan, stack: seq<Frame>, i: nat)
    requires Sorted(pl, stack) && (stack != [] ==> EndOf(pl, stack[|stack| - 1]) > i)
    ensures forall j :: 0 <= j < |stack| ==> EndOf(pl, stack[j]) > i
  {
  }

  ghost predicate Descends(pl: Plan, ts: seq<Block>) {
    && (forall k :: 0 <= k < |ts| ==> ts[k] in pl.rank)
    && (forall a, b :: 0 <= a < b < |ts| ==> pl.rank[ts[a]] > pl.rank[ts[b]])
  }

  lemma {:induction false} KeepSorted(pl: Plan, sc: Scopes, i: nat, ts: seq<Block>, leaving: bool)
    requires i < |pl.order| && Descends(pl, ts)
    ensures Sorted(pl, Keep(pl, sc, i, ts, leaving))
  {
    if ts != [] {
      var init, t := ts[..|ts| - 1], ts[|ts| - 1];
      KeepSorted(pl, sc, i, init, leaving);
      var kept := Keep(pl, sc, i, init, leaving);
      forall j | 0 <= j < |kept| ensures EndOf(pl, kept[j]) >= pl.rank[t] {
        KeepExact(pl, sc, i, init, leaving, kept[j]);
        var k :| 0 <= k < |init| && init[k] == kept[j].name;
        assert pl.rank[ts[k]] > pl.rank[ts[|ts| - 1]];
      }
    }
  }

  lemma OpeningTargets(pl: Plan, sc: Scopes, i: nat)
    requires pl.Valid()
    ensures Descends(pl, Opening(pl.order, sc.starts, i, |pl.order|))
    ensures forall t :: t in Opening(pl.order, sc.starts, i, |pl.order|) <==>
                        t in sc.starts && sc.starts[t] == i && t in pl.rank
  {
    var ts := Opening(pl.order, sc.starts, i, |pl.order|);
    forall t ensures t in ts <==> t in sc.starts && sc.starts[t] == i && t in pl.rank {
      OpeningExact(pl, sc, i, |pl.order|, t);
    }
    forall a, b | 0 <= a < b < |ts| ensures pl.rank[ts[a]] > pl.rank[ts[b]] {
      OpeningDescends(pl, sc, i, |pl.order|, a, b);
    }
  }

  lemma SortedConcat(pl: Plan, a: seq<Frame>, b: seq<Frame>, m: nat)
    requires Sorted(pl, a) && Sorted(pl, b)
    requires forall x :: x in a ==> EndOf(pl, x) >= m
    requires forall y :: y in b ==> EndOf(pl, y) <= m
    ensures Sorted(pl, a + b)
  {
    hide EndOf;
    forall j, l | 0 <= j < l < |a + b| ensures EndOf(pl, (a + b)[j]) >= EndOf(pl, (a + b)[l]) {
      if j < |a| { assert a[j] in a; }
      if l >= |a| { assert b[l - |a|] in b; }
    }
  }

  lemma {:induction false} KeepNone(pl: Plan, sc: Scopes, i: nat, ts: seq<Block>)
    requires i < |pl.order| && pl.order[i] !in sc.loopMax && forall k :: 0 <= k < |ts| ==> ts[k] in pl.rank
    ensures Keep(pl, sc, i, ts, true) == []
  {
    if ts != [] {
      KeepNone(pl, sc, i, ts[..|ts| - 1]);
    }
  }

  /** Landings beyond the loop's end, the loop, landings within it: ends never increase. */
  lemma NewSorted(pl: Plan, sc: Scopes, i: nat, ts: seq<Block>)
    requires i < |pl.order| && Descends(pl, ts)
    ensures Sorted(pl, NewFrames(pl, sc, i, ts))
  {
    hide Keep, Sorted;
    var out, lp, inn := Keep(pl, sc, i, ts, true), LoopFrame(pl, sc, i), Keep(pl, sc, i, ts, false);
    KeepSorted(pl, sc, i, ts, true);
    KeepSorted(pl, sc, i, ts, false);
    forall fr | fr in out ensures fr.kind.Landing? && fr.name in pl.rank && Leaves(pl, sc, i, fr.name) {
      KeepExact(pl, sc, i, ts, true, fr);
    }
    forall fr | fr in inn ensures fr.kind.Landing? && fr.name in pl.rank && !Leaves(pl, sc, i, fr.name) {
      KeepExact(pl, sc, i, ts, false, fr);
    }
    assert Sorted(pl, lp) by { SortedOne(pl, lp); }
    if lp == [] {
      KeepNone(pl, sc, i, ts);
      assert NewFrames(pl, sc, i, ts) == inn;
    } else {
      var m := EndOf(pl, lp[0]);
      SortedConcat(pl, out, lp, m);
      SortedConcat(pl, out + lp, inn, m);
    }
  }

  lemma SortedOne(pl: Plan, stack: seq<Frame>)
    requires |stack| <= 1
    ensures Sorted(pl, stack)
  {
  }

  /** What opens at block i. */
  ghost predicate OpenedAt(pl: Plan, sc: Scopes, i: nat, fr: Frame)
    requires i < |pl.order|
  {
    match fr.kind
    case Loop(m) => fr.name == pl.order[i] && fr.name in sc.loopMax && m == sc.loopMax[fr.name]
    case Landing => fr.name in sc.starts && sc.starts[fr.name] == i
  }

  lemma NewFramesExact(pl: Plan, sc: Scopes, i: nat, ts: seq<Block>, fr: Frame)
    requires pl.Valid() && ScopesValid(pl, sc) && i < |pl.order|
    requires ts == Opening(pl.order, sc.starts, i, |pl.order|) && Descends(pl, ts)
    ensures fr in NewFrames(pl, sc, i, ts) <==> OpenedAt(pl, sc, i, fr)
  {
    hide Keep, Opening;
    OpeningTargets(pl, sc, i);
    KeepExact(pl, sc, i, ts, true, fr);
    KeepExact(pl, sc, i, ts, false, fr);
  }

  /** A scope that is open at block i ends no earlier than one that opens there. */
  lemma OuterEndsLater(pl: Plan, sc: Scopes, i: nat, outer: Frame, inner: Frame)
    requires pl.Valid() && ScopesValid(pl, sc) && Laminar(pl, sc) && i < |pl.order|
    requires OpenedBefore(pl, sc, i, outer) && EndOf(pl, outer) > i && OpenedAt(pl, sc, i, inner)
    ensures EndOf(pl, outer) >= EndOf(pl, inner)
  {
    assert pl.rank[pl.order[i]] == i;
  }

  lemma OpenOrderly(pl: Plan, sc: Scopes, i: nat, stack: seq<Frame>, ts: seq<Block>)
    requires pl.Valid() && ScopesValid(pl, sc) && Laminar(pl, sc) && i < |pl.order|
    requires Orderly(pl, sc, i, i + 1, stack) && forall j :: 0 <= j < |stack| ==> EndOf(pl, stack[j]) > i
    requires ts == Opening(pl.order, sc.starts, i, |pl.order|) && Descends(pl, ts)
    ensures Orderly(pl, sc, i + 1, i + 1, stack + NewFrames(pl, sc, i, ts))
  {
    hide Laminar, NewFrames, Opening, EndOf;
    var added := NewFrames(pl, sc, i, ts);
    var all := stack + added;
    NewSorted(pl, sc, i, ts);
    forall fr ensures fr in added <==> OpenedAt(pl, sc, i, fr) {
      NewFramesExact(pl, sc, i, ts, fr);
    }
    forall j, l | 0 <= j < l < |all| ensures EndOf(pl, all[j]) >= EndOf(pl, all[l]) {
      if j < |stack| <= l {
        assert added[l - |stack|] in added;
        OuterEndsLater(pl, sc, i, all[j], all[l]);
      }
    }
    OpenedAtBefore(pl, sc, i, stack, added);
    forall t | t in sc.starts && sc.starts[t] < i + 1 && pl.rank[t] >= i + 1 ensures Frame(t, Landing) in all {
      assert sc.starts[t] == i ==> OpenedAt(pl, sc, i, Frame(t, Landing));
    }
    forall h | h in sc.loopMax && pl.rank[h] < i + 1 && sc.loopMax[h] + 1 >= i + 1
      ensures Frame(h, Loop(sc.loopMax[h])) in all
    {
      assert pl.rank[h] == i ==> OpenedAt(pl, sc, i, Frame(h, Loop(sc.loopMax[h])));
    }
  }

  lemma OpenedAtBefore(pl: Plan, sc: Scopes, i: nat, stack: seq<Frame>, added: seq<Frame>)
    requires pl.Valid() && i < |pl.order|
    requires forall j :: 0 <= j < |stack| ==> OpenedBefore(pl, sc, i, stack[j])
    requires forall fr :: fr in added ==> OpenedAt(pl, sc, i, fr)
    ensures forall j :: 0 <= j < |stack + added| ==> OpenedBefore(pl, sc, i + 1, (stack + added)[j])
  {
    forall j | 0 <= j < |stack + added| ensures OpenedBefore(pl, sc, i + 1, (stack + added)[j]) {
      if j >= |stack| { assert added[j - |stack|] in added; }
    }
  }

  /** With nothing crossing, both guards let block i pass. */
  lemma GuardsPass(pl: Plan, sc: Scopes, i: nat, stack: seq<Frame>)
    requires pl.Valid() && ScopesValid(pl, sc) && Laminar(pl, sc) && i < |pl.order|
    requires Orderly(pl, sc, i + 1, i + 1, stack)
    ensures Labelled(pl, i, FrameNames(stack))
  {
    OrderedSuccessors(pl, i);
    forall t | t in Successors(pl.f[pl.order[i]]) ensures t in FrameNames(stack) {
      assert EdgeTo(pl, i, t);
      var fr := if pl.rank[t] > i then Frame(t, Landing) else Frame(t, Loop(sc.loopMax[t]));
      assert fr in stack;
      var j :| 0 <= j < |stack| && stack[j] == fr;
      assert FrameNames(stack)[j] == t;
    }
  }

  // ---- what the guards show ----

  /** No landing opens inside a loop and ends past it. */
  ghost predicate NoneLeaves(pl: Plan, sc: Scopes)
    requires ScopesValid(pl, sc)
  {
    forall h, t :: h in sc.loopMax && t in sc.starts ==>
      !(pl.rank[h] < sc.starts[t] <= sc.loopMax[h] < pl.rank[t])
  }

  /** Rank r lies past the header, and inside, of a loop that opens no earlier than block t. */
  ghost predicate InSpan(pl: Plan, sc: Scopes, t: Block, r: nat)
    requires ScopesValid(pl, sc) && t in pl.rank
  {
    exists g :: g in sc.loopMax && pl.rank[t] <= pl.rank[g] < r <= sc.loopMax[g]
  }

  ghost predicate CoveredTo(pl: Plan, sc: Scopes, t: Block, n: nat)
    requires ScopesValid(pl, sc) && t in pl.rank
  {
    forall r :: pl.rank[t] < r < n ==> InSpan(pl, sc, t, r)
  }

  /** No landing of the first n blocks that opened before a loop ends inside it. */
  ghost predicate LandingsClear(pl: Plan, sc: Scopes, n: nat)
    requires ScopesValid(pl, sc)
  {
    forall h, t :: h in sc.loopMax && t in sc.starts && pl.rank[t] < n ==>
      !(sc.starts[t] < pl.rank[h] < pl.rank[t] <= sc.loopMax[h])
  }

  /** A backward edge of the first n blocks goes to a header, and loops opened no earlier reach to its source. */
  ghost predicate EdgesCovered(pl: Plan, sc: Scopes, n: nat)
    requires pl.Valid() && ScopesValid(pl, sc)
  {
    forall i, t :: 0 <= i < n && i < |pl.order| && EdgeTo(pl, i, t) && pl.rank[t] <= i ==>
      t in sc.loopMax && CoveredTo(pl, sc, t, i + 1)
  }

  /** The rank a scope opens at; the shared return's comes before all. */
  ghost function OpenOf(pl: Plan, sc: Scopes, fr: Frame): int {
    match fr.kind
    case Loop(_) => if fr.name in pl.rank then pl.rank[fr.name] else -1
    case Landing => if fr.name in pl.rank && fr.name in sc.starts then sc.starts[fr.name] else -1
  }

  /** The outer of two scopes opened earlier, or at the same block and ends no earlier. */
  ghost predicate Outer(pl: Plan, sc: Scopes, a: Frame, b: Frame) {
    || OpenOf(pl, sc, a) < OpenOf(pl, sc, b)
    || (OpenOf(pl, sc, a) == OpenOf(pl, sc, b) && EndOf(pl, a) >= EndOf(pl, b))
  }

  ghost predicate Stacked(pl: Plan, sc: Scopes, stack: seq<Frame>) {
    forall j, l :: 0 <= j < l < |stack| ==> Outer(pl, sc, stack[j], stack[l])
  }

  /** The stack, crossing scopes or not: in the order of opening, with every scope opened before rank i that
      ends at `lo` or later, and each loop on it covered up to rank n. */
  ghost predicate Piled(pl: Plan, sc: Scopes, i: nat, lo: nat, n: nat, stack: seq<Frame>)
    requires ScopesValid(pl, sc)
  {
    && Stacked(pl, sc, stack)
    && (forall j :: 0 <= j < |stack| ==> OpenedBefore(pl, sc, i, stack[j]))
    && (forall t :: t in sc.starts && sc.starts[t] < i && pl.rank[t] >= lo ==> Frame(t, Landing) in stack)
    && (forall h :: h in sc.loopMax && pl.rank[h] < i && sc.loopMax[h] + 1 >= lo ==>
          Frame(h, Loop(sc.loopMax[h])) in stack)
    && (forall j :: 0 <= j < |stack| && stack[j].kind.Loop? ==> CoveredTo(pl, sc, stack[j].name, n))
  }

  lemma InitialPiled(pl: Plan, sc: Scopes)
    requires pl.Valid() && ScopesValid(pl, sc)
    ensures Piled(pl, sc, 0, 0, 0, if pl.epilogue.Some? then [Frame(pl.epilogue.value, Landing)] else [])
  {
  }

  /** A landing that the first guard lets go had no unfinished loop above it. */
  lemma CloseClear(pl: Plan, sc: Scopes, i: nat, stack: seq<Frame>, left: seq<Frame>, h: Block, t: Block)
    requires pl.Valid() && ScopesValid(pl, sc) && i < |pl.order| && Piled(pl, sc, i, i, i, stack)
    requires left <= stack && (forall j :: |left| <= j < |stack| ==> Done(pl.rank, pl.order, stack[j], i))
    requires !Crossing(pl, left, i) && h in sc.loopMax && t in sc.starts && pl.rank[t] == i
    ensures !(sc.starts[t] < pl.rank[h] < pl.rank[t] <= sc.loopMax[h])
  {
    hide CoveredTo, EndOf;
    assert pl.rank[h] < i ==> sc.loopMax[h] < i || Frame(h, Loop(sc.loopMax[h])) in stack;
    assert Frame(t, Landing) in stack && Frame(t, Landing) !in left;
  }

  /** A finished loop still on the stack lies under an unfinished scope. */
  lemma TopCovers(pl: Plan, sc: Scopes, i: nat, left: seq<Frame>, j: nat)
    requires pl.Valid() && ScopesValid(pl, sc) && i < |pl.order| && NoneLeaves(pl, sc)
    requires Stacked(pl, sc, left) && (forall k :: 0 <= k < |left| ==> OpenedBefore(pl, sc, i, left[k]))
    requires !Crossing(pl, left, i) && j < |left| && !Done(pl.rank, pl.order, left[|left| - 1], i)
    requires left[j].kind.Loop? && left[j].name in pl.rank && CoveredTo(pl, sc, left[j].name, i)
    ensures InSpan(pl, sc, left[j].name, i)
  {
    var t, top := left[j].name, left[|left| - 1];
    assert OpenedBefore(pl, sc, i, left[j]) && OpenedBefore(pl, sc, i, top);
    if sc.loopMax[t] < i {
      assert j < |left| - 1;
      assert Outer(pl, sc, left[j], top);
      if top.kind.Landing? {
        var u := top.name;
        assert u in pl.rank && pl.rank[u] > i;
        assert pl.rank[t] < sc.starts[u];
        assert InSpan(pl, sc, t, sc.starts[u]);
      }
    }
  }

  lemma ClosePiled(pl: Plan, sc: Scopes, i: nat, stack: seq<Frame>, left: seq<Frame>)
    requires pl.Valid() && ScopesValid(pl, sc) && i < |pl.order| && NoneLeaves(pl, sc) && Piled(pl, sc, i, i, i, stack)
    requires left <= stack && (forall j :: |left| <= j < |stack| ==> Done(pl.rank, pl.order, stack[j], i))
    requires !Crossing(pl, left, i) && (left != [] ==> !Done(pl.rank, pl.order, left[|left| - 1], i))
    ensures Piled(pl, sc, i, i + 1, i + 1, left)
  {
    hide NoneLeaves, InSpan, EndOf, Outer, Crossing;
    forall fr | fr in stack && !Done(pl.rank, pl.order, fr, i) ensures fr in left {
      var k :| 0 <= k < |stack| && stack[k] == fr;
      assert k < |left| ==> left[k] == fr;
    }
    forall t | t in sc.starts && sc.starts[t] < i && pl.rank[t] >= i + 1 ensures Frame(t, Landing) in left {
      assert pl.rank[pl.order[i]] == i;
    }
    forall j | 0 <= j < |left| && left[j].kind.Loop? ensures CoveredTo(pl, sc, left[j].name, i + 1) {
      assert left[j] == stack[j];
      TopCovers(pl, sc, i, left, j);
    }
  }

  lemma OpenPiled(pl: Plan, sc: Scopes, i: nat, stack: seq<Frame>, ts: seq<Block>)
    requires pl.Valid() && ScopesValid(pl, sc) && i < |pl.order| && Piled(pl, sc, i, i + 1, i + 1, stack)
    requires ts == Opening(pl.order, sc.starts, i, |pl.order|) && Descends(pl, ts)
    ensures Piled(pl, sc, i + 1, i + 1, i + 1, stack + NewFrames(pl, sc, i, ts))
  {
    hide NewFrames, Opening, EndOf, CoveredTo;
    var added := NewFrames(pl, sc, i, ts);
    var all := stack + added;
    NewSorted(pl, sc, i, ts);
    assert pl.rank[pl.order[i]] == i;
    forall fr ensures fr in added <==> OpenedAt(pl, sc, i, fr) {
      NewFramesExact(pl, sc, i, ts, fr);
    }
    forall j, l | 0 <= j < l < |all| ensures Outer(pl, sc, all[j], all[l]) {
      if l >= |stack| { assert added[l - |stack|] in added; }
      if j >= |stack| { assert added[j - |stack|] in added; }
    }
    OpenedAtBefore(pl, sc, i, stack, added);
    forall t | t in sc.starts && sc.starts[t] < i + 1 && pl.rank[t] >= i + 1 ensures Frame(t, Landing) in all {
      assert sc.starts[t] == i ==> OpenedAt(pl, sc, i, Frame(t, Landing));
    }
    forall h | h in sc.loopMax && pl.rank[h] < i + 1 && sc.loopMax[h] + 1 >= i + 1
      ensures Frame(h, Loop(sc.loopMax[h])) in all
    {
      assert pl.rank[h] == i ==> OpenedAt(pl, sc, i, Frame(h, Loop(sc.loopMax[h])));
    }
    forall j | 0 <= j < |all| && all[j].kind.Loop? ensures CoveredTo(pl, sc, all[j].name, i + 1) {
      if j >= |stack| {
        assert added[j - |stack|] in added;
        NothingToCover(pl, sc, i);
      }
    }
  }

  lemma NothingToCover(pl: Plan, sc: Scopes, i: nat)
    requires pl.Valid() && ScopesValid(pl, sc) && i < |pl.order|
    ensures CoveredTo(pl, sc, pl.order[i], i + 1)
  {
  }

  /** A successor that does not come later and has a label heads a loop on the stack. */
  lemma EdgeCovered(pl: Plan, sc: Scopes, i: nat, stack: seq<Frame>, t: Block)
    requires pl.Valid() && ScopesValid(pl, sc) && i < |pl.order| && Piled(pl, sc, i + 1, i + 1, i + 1, stack)
    requires Labelled(pl, i, FrameNames(stack)) && EdgeTo(pl, i, t) && pl.rank[t] <= i
    requires forall j :: 0 <= j < |stack| && stack[j].kind.Landing? && stack[j].name in pl.rank ==>
               pl.rank[stack[j].name] > i
    ensures t in sc.loopMax && CoveredTo(pl, sc, t, i + 1)
  {
    hide CoveredTo, Stacked;
    var names := FrameNames(stack);
    assert t in names;
    var j :| 0 <= j < |names| && names[j] == t;
    assert stack[j].name == t && OpenedBefore(pl, sc, i + 1, stack[j]);
  }

  lemma NoneYet(pl: Plan, sc: Scopes)
    requires pl.Valid() && ScopesValid(pl, sc)
    ensures LandingsClear(pl, sc, 0) && EdgesCovered(pl, sc, 0)
  {
  }

  /** What one round that both guards let pass shows. */
  lemma RoundShows(pl: Plan, sc: Scopes, i: nat, full: seq<Frame>, left: seq<Frame>, stack: seq<Frame>)
    requires pl.Valid() && ScopesValid(pl, sc) && i < |pl.order| && NoneLeaves(pl, sc)
    requires Piled(pl, sc, i, i, i, full) && LandingsClear(pl, sc, i) && EdgesCovered(pl, sc, i)
    requires left <= full && (forall j :: |left| <= j < |full| ==> Done(pl.rank, pl.order, full[j], i))
    requires !Crossing(pl, left, i) && (left != [] ==> !Done(pl.rank, pl.order, left[|left| - 1], i))
    requires Descends(pl, Opening(pl.order, sc.starts, i, |pl.order|))
    requires stack == left + NewFrames(pl, sc, i, Opening(pl.order, sc.starts, i, |pl.order|))
    requires Labelled(pl, i, FrameNames(stack))
    requires forall j :: 0 <= j < |stack| && stack[j].kind.Landing? && stack[j].name in pl.rank ==>
               pl.rank[stack[j].name] > i
    ensures Piled(pl, sc, i + 1, i + 1, i + 1, stack) && LandingsClear(pl, sc, i + 1) && EdgesCovered(pl, sc, i + 1)
  {
    hide NoneLeaves, Piled, Done, Crossing, Opening, NewFrames, Descends, Labelled, FrameNames, CoveredTo, EdgeTo;
    ClosePiled(pl, sc, i, full, left);
    OpenPiled(pl, sc, i, left, Opening(pl.order, sc.starts, i, |pl.order|));
    forall h, t | h in sc.loopMax && t in sc.starts && pl.rank[t] < i + 1
      ensures !(sc.starts[t] < pl.rank[h] < pl.rank[t] <= sc.loopMax[h])
    {
      if pl.rank[t] == i { CloseClear(pl, sc, i, full, left, h, t); }
    }
    forall k, t | 0 <= k < i + 1 && EdgeTo(pl, k, t) && pl.rank[t] <= k
      ensures t in sc.loopMax && CoveredTo(pl, sc, t, k + 1)
    {
      if k == i { EdgeCovered(pl, sc, i, stack, t); }
    }
  }

  // ---- the outline of the code ----

  /** The begins of scopes and the contents of blocks, in order. */
  function Outlined(ops: seq<Op>): seq<Op> {
    if ops == [] then []
    else
      var n := |ops| - 1;
      Outlined(ops[..n]) + if ops[n].Opens() || ops[n].BlockContent? then [ops[n]] else []
  }

  lemma {:induction false} OutlinedConcat(a: seq<Op>, b: seq<Op>)
    ensures Outlined(a + b) == Outlined(a) + Outlined(b)
    decreases |b|
  {
    if b == [] {
      assert a + b == a;
    } else {
      var n := |b| - 1;
      assert (a + b)[..|a| + n] == a + b[..n];
      OutlinedConcat(a, b[..n]);
    }
  }

  lemma {:induction false} OutlinedNone(ops: seq<Op>)
    requires forall k :: 0 <= k < |ops| ==> !ops[k].Opens() && !ops[k].BlockContent?
    ensures Outlined(ops) == []
  {
    if ops != [] { OutlinedNone(ops[..|ops| - 1]); }
  }

  lemma OutlinedOne(ops: seq<Op>, op: Op)
    ensures Outlined(ops + [op]) == Outlined(ops) + if op.Opens() || op.BlockContent? then [op] else []
  {
    assert (ops + [op])[..|ops|] == ops;
  }

  function Begins(frames: seq<Frame>): (r: seq<Op>)
    ensures |r| == |frames|
  {
    seq(|frames|, k requires 0 <= k < |frames| => BeginOp(frames[k]))
  }

  /** The scopes of block i, each once, outermost first. */
  ghost function Section(pl: Plan, sc: Scopes, i: nat): seq<Op>
    requires pl.Valid() && i < |pl.order|
  {
    var ts := Opening(pl.order, sc.starts, i, |pl.order|);
    OpeningRanked(pl, sc, i, ts);
    Begins(NewFrames(pl, sc, i, ts))
  }

  lemma OpeningRanked(pl: Plan, sc: Scopes, i: nat, ts: seq<Block>)
    requires pl.Valid() && i < |pl.order| && ts == Opening(pl.order, sc.starts, i, |pl.order|)
    ensures forall k :: 0 <= k < |ts| ==> ts[k] in pl.rank
  {
    hide Opening;
    forall k | 0 <= k < |ts| ensures ts[k] in pl.rank {
      assert ts[k] in ts;
      OpeningExact(pl, sc, i, |pl.order|, ts[k]);
    }
  }

  /** The outline of the first n blocks: the shared return's scope, then the scopes and the content of each. */
  ghost function Outline(pl: Plan, sc: Scopes, n: nat): seq<Op>
    requires pl.Valid() && n <= |pl.order|
  {
    if n == 0 then if pl.epilogue.Some? then [BlockBegin(pl.epilogue.value)] else []
    else Outline(pl, sc, n - 1) + Section(pl, sc, n - 1) + [BlockContent(pl.order[n - 1])]
  }

  /** A section holds the loop its block heads and the landings that open at its rank, and no other scope. */
  lemma SectionExact(pl: Plan, sc: Scopes, i: nat, op: Op)
    requires pl.Valid() && ScopesValid(pl, sc) && i < |pl.order|
    ensures op in Section(pl, sc, i) <==>
              match op
              case LoopBegin(h) => h == pl.order[i] && h in sc.loopMax
              case BlockBegin(t) => t in sc.starts && sc.starts[t] == i
              case _ => false
  {
    hide Opening, NewFrames;
    OpeningTargets(pl, sc, i);
    var frames := NewFrames(pl, sc, i, Opening(pl.order, sc.starts, i, |pl.order|));
    forall fr ensures fr in frames <==> OpenedAt(pl, sc, i, fr) {
      NewFramesExact(pl, sc, i, Opening(pl.order, sc.starts, i, |pl.order|), fr);
    }
    var r := Begins(frames);
    if op in r {
      var k :| 0 <= k < |r| && r[k] == op;
      assert frames[k] in frames;
    }
    forall fr | fr in frames ensures BeginOp(fr) in r {
      var k :| 0 <= k < |frames| && frames[k] == fr;
      assert r[k] == BeginOp(fr);
    }
    if op.LoopBegin? && op.header == pl.order[i] && op.header in sc.loopMax {
      assert Frame(op.header, Loop(sc.loopMax[op.header])) in frames;
    }
    if op.BlockBegin? && op.landing in sc.starts && sc.starts[op.landing] == i {
      assert Frame(op.landing, Landing) in frames;
    }
  }

  // ---- the method ----

  function CountReturns(f: Func): nat {
    if f == [] then 0 else CountReturns(f[..|f| - 1]) + if f[|f| - 1].Return? then 1 else 0
  }

  /** The shared return gets a label of its own when more than one block returns. */
  function PlanOf(f: Func, order: seq<Block>, rank: map<Block, nat>): (pl: Plan)
    ensures order != [] && Closed(f, order) && Ranks(order, rank) ==> pl.Valid()
  {
    var epilogue: Option<Block> := if CountReturns(f) > 1 then Some(|f|) else None;
    assert order != [] && Closed(f, order) && Ranks(order, rank) ==> |f| !in rank by {
      if Closed(f, order) && Ranks(order, rank) { FreshLabel(f, order, rank); }
    }
    Plan(f, order, rank, epilogue)
  }

  lemma {:induction false} ReturnsCounted(f: Func)
    ensures CountReturns(f) > 0 <==> exists i :: 0 <= i < |f| && f[i].Return?
    ensures CountReturns(f) > 1 <==> exists i, j :: 0 <= i < j < |f| && f[i].Return? && f[j].Return?
  {
    if f != [] {
      var n := |f| - 1;
      var init := f[..n];
      ReturnsCounted(init);
      assert forall k :: 0 <= k < n ==> init[k] == f[k];
      if i :| 0 <= i < n && init[i].Return? { assert f[i].Return? && i < n; }
      if i, j :| 0 <= i < j < n && init[i].Return? && init[j].Return? { assert f[i].Return? && f[j].Return?; }
    }
  }

  /** There is a shared return exactly when two blocks return, under a label that is no block's. */
  lemma SharedExactly(f: Func, order: seq<Block>, rank: map<Block, nat>)
    ensures PlanOf(f, order, rank).epilogue ==
              if exists i, j :: 0 <= i < j < |f| && f[i].Return? && f[j].Return? then Some(|f|) else None
  {
    ReturnsCounted(f);
  }

  lemma FreshLabel(f: Func, order: seq<Block>, rank: map<Block, nat>)
    requires Closed(f, order) && Ranks(order, rank)
    ensures |f| !in rank
  {
    forall b | b in rank ensures b < |f| {
      assert order[rank[b]] in order;
    }
  }

  /** Closes what is done before block i: landings of i itself and finished loops. */
  method CloseDone(pl: Plan, i: nat, ops: seq<Op>, stack: seq<Frame>, ghost sc: Scopes, ghost pcs: seq<nat>)
    returns (ops': seq<Op>, stack': seq<Frame>)
    requires pl.Valid() && ScopesValid(pl, sc) && i == |pcs| < |pl.order| && State(pl, ops, pcs, stack)
    ensures State(pl, ops', pcs, stack') && Outlined(ops') == Outlined(ops)
    ensures stack' <= stack && (forall j :: |stack'| <= j < |stack| ==> Done(pl.rank, pl.order, stack[j], i))
    ensures stack' != [] ==> !Done(pl.rank, pl.order, stack'[|stack'| - 1], i)
    ensures Laminar(pl, sc) && Orderly(pl, sc, i, i, stack) ==>
            Orderly(pl, sc, i, i + 1, stack') && forall j :: 0 <= j < |stack'| ==> EndOf(pl, stack'[j]) > i
  {
    hide State, Laminar, Done, EndOf, Outlined;
    ops', stack' := ops, stack;
    ghost var good := Laminar(pl, sc) && Orderly(pl, sc, i, i, stack);
    while stack' != [] && Done(pl.rank, pl.order, stack'[|stack'| - 1], i)
      invariant State(pl, ops', pcs, stack') && Outlined(ops') == Outlined(ops)
      invariant stack' <= stack && forall j :: |stack'| <= j < |stack| ==> Done(pl.rank, pl.order, stack[j], i)
      invariant good ==> Orderly(pl, sc, i, i + 1, stack')
      decreases |stack'|
    {
      DoneFrame(pl, ops', pcs, stack');
      CloseStep(pl, ops', pcs, stack');
      if good {
        DoneIsEnded(pl, stack'[|stack'| - 1], i);
        PopOrderly(pl, sc, i, stack');
      }
      OutlinedOne(ops', EndOp(stack'[|stack'| - 1]));
      ops' := ops' + [EndOp(stack'[|stack'| - 1])];
      stack' := stack'[..|stack'| - 1];
    }
    if good {
      if stack' != [] { DoneIsEnded(pl, stack'[|stack'| - 1], i); }
      TopBoundsAll(pl, stack', i);
    }
  }

  lemma BeginsMore(a: seq<Frame>, b: seq<Frame>)
    ensures Begins(a + b) == Begins(a) + Begins(b)
    ensures |b| == 1 ==> Begins(b) == [BeginOp(b[0])]
  {
  }

  /** Opens the landings among `ts` that leave block i's loop, or those that do not. */
  method OpenLandings(pl: Plan, sc: Scopes, i: nat, ts: seq<Block>, leaving: bool, ops: seq<Op>, stack: seq<Frame>,
                      ghost pcs: seq<nat>)
    returns (ops': seq<Op>, stack': seq<Frame>)
    requires i == |pcs| < |pl.order| && State(pl, ops, pcs, stack)
    requires forall k :: 0 <= k < |ts| ==> ts[k] in pl.rank && pl.rank[ts[k]] > i
    ensures State(pl, ops', pcs, stack') && stack' == stack + Keep(pl, sc, i, ts, leaving)
    ensures Outlined(ops') == Outlined(ops) + Begins(Keep(pl, sc, i, ts, leaving))
  {
    hide State, Leaves, Outlined;
    ops', stack' := ops, stack;
    for k := 0 to |ts|
      invariant State(pl, ops', pcs, stack') && stack' == stack + Keep(pl, sc, i, ts[..k], leaving)
      invariant Outlined(ops') == Outlined(ops) + Begins(Keep(pl, sc, i, ts[..k], leaving))
    {
      assert ts[..k + 1][..k] == ts[..k];
      if Leaves(pl, sc, i, ts[k]) == leaving {
        OutlinedOne(ops', BlockBegin(ts[k]));
        BeginsMore(Keep(pl, sc, i, ts[..k], leaving), [Frame(ts[k], Landing)]);
        OpenStep(pl, ops', pcs, stack', Frame(ts[k], Landing));
        ops' := ops' + [BlockBegin(ts[k])];
        stack' := stack' + [Frame(ts[k], Landing)];
      }
    }
    assert ts[..|ts|] == ts;
  }

  /** Opens the loop block i heads. */
  method OpenLoop(pl: Plan, sc: Scopes, i: nat, ops: seq<Op>, stack: seq<Frame>, ghost pcs: seq<nat>)
    returns (ops': seq<Op>, stack': seq<Frame>)
    requires pl.Valid() && i == |pcs| < |pl.order| && State(pl, ops, pcs, stack)
    ensures State(pl, ops', pcs, stack') && stack' == stack + LoopFrame(pl, sc, i)
    ensures Outlined(ops') == Outlined(ops) + Begins(LoopFrame(pl, sc, i))
  {
    hide State, Outlined;
    ops', stack' := ops, stack;
    var b := pl.order[i];
    assert pl.rank[b] == i;
    BeginsMore([], LoopFrame(pl, sc, i));
    if b in sc.loopMax {
      OutlinedOne(ops, LoopBegin(b));
      OpenStep(pl, ops, pcs, stack, Frame(b, Loop(sc.loopMax[b])));
      ops' := ops + [LoopBegin(b)];
      stack' := stack + [Frame(b, Loop(sc.loopMax[b]))];
    }
  }

  /** Opens the scopes of block i: what leaves its loop outside of it, the rest inside. */
  method OpenScopes(pl: Plan, sc: Scopes, i: nat, ops: seq<Op>, stack: seq<Frame>, ghost pcs: seq<nat>)
    returns (ops': seq<Op>, stack': seq<Frame>)
    requires pl.Valid() && ScopesValid(pl, sc) && i == |pcs| < |pl.order| && State(pl, ops, pcs, stack)
    ensures State(pl, ops', pcs, stack') && Outlined(ops') == Outlined(ops) + Section(pl, sc, i)
    ensures Descends(pl, Opening(pl.order, sc.starts, i, |pl.order|))
    ensures stack' == stack + NewFrames(pl, sc, i, Opening(pl.order, sc.starts, i, |pl.order|))
    ensures forall j :: 0 <= j < |stack'| && stack'[j].kind.Landing? && stack'[j] !in stack ==>
              stack'[j].name in pl.rank && pl.rank[stack'[j].name] > i
    ensures Laminar(pl, sc) && Orderly(pl, sc, i, i + 1, stack)
            && (forall j :: 0 <= j < |stack| ==> EndOf(pl, stack[j]) > i) ==>
            Orderly(pl, sc, i + 1, i + 1, stack')
  {
    hide State, Laminar, EndOf, Opening, Keep, Orderly, Outlined, Begins, LoopFrame;
    var ts := Opening(pl.order, sc.starts, i, |pl.order|);
    OpeningTargets(pl, sc, i);
    assert forall k :: 0 <= k < |ts| ==> ts[k] in ts;
    ops', stack' := OpenLandings(pl, sc, i, ts, true, ops, stack, pcs);
    ops', stack' := OpenLoop(pl, sc, i, ops', stack', pcs);
    ops', stack' := OpenLandings(pl, sc, i, ts, false, ops', stack', pcs);
    ghost var leaving, staying := Keep(pl, sc, i, ts, true), Keep(pl, sc, i, ts, false);
    BeginsMore(leaving, LoopFrame(pl, sc, i));
    BeginsMore(leaving + LoopFrame(pl, sc, i), staying);
    assert stack' == stack + NewFrames(pl, sc, i, ts);
    forall j | 0 <= j < |stack'| && stack'[j].kind.Landing? && stack'[j] !in stack
      ensures stack'[j].name in pl.rank && pl.rank[stack'[j].name] > i
    {
      assert stack'[j] in NewFrames(pl, sc, i, ts);
      NewFramesExact(pl, sc, i, ts, stack'[j]);
    }
    if Laminar(pl, sc) && Orderly(pl, sc, i, i + 1, stack) && forall j :: 0 <= j < |stack| ==> EndOf(pl, stack[j]) > i {
      OpenOrderly(pl, sc, i, stack, ts);
    }
  }

  /** The first guard: some landing at or before block i is still open. */
  predicate Crossing(pl: Plan, stack: seq<Frame>, i: nat) {
    exists j :: 0 <= j < |stack| && stack[j].kind.Landing? && stack[j].name in pl.rank && pl.rank[stack[j].name] <= i
  }

  /** The second guard: some successor has no open label. */
  predicate Unlabelled(successors: seq<Block>, names: seq<Block>) {
    exists k :: 0 <= k < |successors| && successors[k] !in names
  }

  /** Nothing has been written yet, except the begin of the shared return's scope. */
  lemma InitialState(pl: Plan, sc: Scopes)
    requires pl.Valid() && ScopesValid(pl, sc)
    ensures var stack := if pl.epilogue.Some? then [Frame(pl.epilogue.value, Landing)] else [];
            var ops := if pl.epilogue.Some? then [BlockBegin(pl.epilogue.value)] else [];
            State(pl, ops, [], stack) && Orderly(pl, sc, 0, 0, stack)
  {
    hide State, Orderly;
    InitialTracks(pl);
    InitialOrderly(pl, sc);
  }

  lemma InitialTracks(pl: Plan)
    requires pl.Valid()
    ensures var stack := if pl.epilogue.Some? then [Frame(pl.epilogue.value, Landing)] else [];
            var ops := if pl.epilogue.Some? then [BlockBegin(pl.epilogue.value)] else [];
            State(pl, ops, [], stack)
  {
    var fr := Frame(if pl.epilogue.Some? then pl.epilogue.value else 0, Landing);
    assert Tracks([], []);
    PushTracks([], [], fr);
    assert [] + [BeginOp(fr)] == [BlockBegin(fr.name)] && [] + [fr] == [fr];
    assert pl.rank[pl.order[0]] == 0;
  }

  lemma InitialOrderly(pl: Plan, sc: Scopes)
    requires pl.Valid() && ScopesValid(pl, sc)
    ensures Orderly(pl, sc, 0, 0, if pl.epilogue.Some? then [Frame(pl.epilogue.value, Landing)] else [])
  {
  }

  /** Only loops and the shared return are left when the last block is written. */
  lemma LeftOver(pl: Plan, ops: seq<Op>, pcs: seq<nat>, stack: seq<Frame>)
    requires State(pl, ops, pcs, stack) && |pcs| == |pl.order| && |stack| > (if pl.epilogue.Some? then 1 else 0)
    ensures var fr := stack[|stack| - 1]; fr.name in pl.rank && fr.kind.Loop?
  {
    hide Tracks, NamesAt, BlockAt, Heads, Resume;
    assert pl.Valid();
  }

  lemma Finished(pl: Plan, ops: seq<Op>, pcs: seq<nat>)
    requires Tracks(ops, []) && Written(pl, ops, pcs) && |pcs| == |pl.order|
    ensures LaidBlocks(pl, ops, pcs)
  {
    hide BlockAt, AllStructural, WellNested, Resume, NamesAt;
  }

  lemma ReturnAppended(pl: Plan, ops: seq<Op>, pcs: seq<nat>)
    requires LaidBlocks(pl, ops, pcs)
    ensures LaidBlocks(pl, ops + [Op.Return], pcs)
  {
    hide BlockAt, LeadsTo, WellNested, Enclosing, NamesAt, Ranks, Closed;
    var more := ops + [Op.Return];
    NestedExtend(ops, Op.Return);
    EnclosingAppend(ops, Op.Return);
    forall i | 0 <= i < |pcs| ensures BlockAt(pl, more, pcs, i) {
      BlockAtExtend(pl, ops, [Op.Return], pcs, i);
    }
    LeadsToExtend(pl, ops, [Op.Return], pcs, 0, pl.order[0]);
    forall e | 0 <= e < |more| && more[e].BlockEnd? && more[e].landing in pl.rank
      ensures LeadsTo(pl, more, pcs, e + 1, more[e].landing)
    {
      LeadsToExtend(pl, ops, [Op.Return], pcs, e + 1, more[e].landing);
    }
    forall b | 0 <= b < |more| && more[b].LoopBegin? ensures LeadsTo(pl, more, pcs, b, more[b].header) {
      LeadsToExtend(pl, ops, [Op.Return], pcs, b, more[b].header);
    }
  }

  lemma LeadsToExtend(pl: Plan, ops: seq<Op>, more: seq<Op>, pcs: seq<nat>, p: nat, b: Block)
    requires LeadsTo(pl, ops, pcs, p, b)
    ensures LeadsTo(pl, ops + more, pcs, p, b)
  {
  }

  /** Closing the shared scope and returning completes the function. */
  lemma FinishedShared(pl: Plan, ops: seq<Op>, pcs: seq<nat>)
    requires pl.epilogue.Some? && |pcs| == |pl.order|
    requires State(pl, ops, pcs, [Frame(pl.epilogue.value, Landing)])
    ensures Laid(pl, (ops + [BlockEnd(pl.epilogue.value)]) + [Op.Return], pcs)
  {
    hide Tracks, Written, LaidBlocks, NamesAt;
    var fr := Frame(pl.epilogue.value, Landing);
    var closed := ops + [BlockEnd(pl.epilogue.value)];
    WrittenValid(pl, ops, pcs);
    PopTracks(ops, [fr]);
    assert [fr][..0] == [];
    StructuralExtend(pl, ops, BlockEnd(pl.epilogue.value), pcs);
    Finished(pl, closed, pcs);
    ReturnAppended(pl, closed, pcs);
    var all := closed + [Op.Return];
    assert all == ops + [BlockEnd(pl.epilogue.value), Op.Return];
    forall i | 0 <= i < |pcs| ensures pcs[i] <= |all| && pl.epilogue.value in NamesAt(all, pcs[i]) {
      NamesExtend(ops, [BlockEnd(pl.epilogue.value), Op.Return], pcs[i]);
    }
    forall b | 0 <= b < |all| && all[b].LoopBegin? ensures all[b].header != pl.epilogue.value {
      LoopsRanked(pl, ops, pcs, b);
    }
  }

  lemma LoopsRanked(pl: Plan, ops: seq<Op>, pcs: seq<nat>, b: nat)
    requires Written(pl, ops, pcs) && b < |ops| && ops[b].LoopBegin?
    ensures ops[b].header in pl.rank
  {
    hide BlockAt, Resume;
  }

  /** Writes the blocks in order. On success the operations walk the graph; when
      nothing crosses there is no failure; and success shows what the guards let through. */
  method Emit(f: Func, order: seq<Block>, rank: map<Block, nat>, sc: Scopes)
    returns (r: Result<seq<Op>>, ghost pcs: seq<nat>)
    requires order != [] && Closed(f, order) && Ranks(order, rank)
    requires ScopesValid(PlanOf(f, order, rank), sc)
    ensures r.Ok? ==> Walks(f, order, r.value) && Laid(PlanOf(f, order, rank), r.value, pcs)
    ensures r.Ok? ==> Outlined(r.value) == Outline(PlanOf(f, order, rank), sc, |order|)
    ensures Laminar(PlanOf(f, order, rank), sc) ==> r.Ok?
    ensures r.Ok? && NoneLeaves(PlanOf(f, order, rank), sc) ==>
              LandingsClear(PlanOf(f, order, rank), sc, |order|) && EdgesCovered(PlanOf(f, order, rank), sc, |order|)
  {
    hide State, Laminar, Orderly, Walks, TerminatorOps, CountReturns, NoneLeaves, Piled, LandingsClear, EdgesCovered,
         Done, Opening, NewFrames, Descends, EndOf, Crossing, Outlined, Outline, Section, Laid;
    var pl := PlanOf(f, order, rank);
    var epilogue := pl.epilogue;
    ghost var good, tidy := Laminar(pl, sc), NoneLeaves(pl, sc);
    InitialState(pl, sc);
    InitialPiled(pl, sc);
    NoneYet(pl, sc);
    var stack: seq<Frame>, ops: seq<Op> := [], [];
    if epilogue.Some? {
      ops := [BlockBegin(epilogue.value)];
      stack := [Frame(epilogue.value, Landing)];
    }
    pcs := [];
    assert Outlined(ops) == Outline(pl, sc, 0) by { OutlineStart(pl, sc); }
    for i := 0 to |order|
      invariant |pcs| == i && State(pl, ops, pcs, stack)
      invariant Outlined(ops) == Outline(pl, sc, i)
      invariant good ==> Orderly(pl, sc, i, i, stack)
      invariant tidy ==> Piled(pl, sc, i, i, i, stack) && LandingsClear(pl, sc, i) && EdgesCovered(pl, sc, i)
    {
      ghost var full := stack;
      ops, stack := CloseDone(pl, i, ops, stack, sc, pcs);
      if Crossing(pl, stack, i) {
        assert !good by { if good { NotCrossing(pl, stack, i); } }
        return Err(CrossingScopes), pcs;
      }
      ghost var before := stack;
      ops, stack := OpenScopes(pl, sc, i, ops, stack, pcs);
      OrderedSuccessors(pl, i);
      if Unlabelled(Successors(f[order[i]]), FrameNames(stack)) {
        assert !good by { if good { GuardsPass(pl, sc, i, stack); } }
        return Err(NoActiveLabel), pcs;
      }
      GuardsHold(pl, before, stack, i);
      BodyStep(pl, ops, pcs, stack);
      if tidy {
        RoundShows(pl, sc, i, full, before, stack);
      }
      pcs := pcs + [|ops|];
      OutlineBody(pl, sc, i, ops, stack);
      ops := ops + ([BlockContent(order[i])] + TerminatorOps(f[order[i]], order[i], rank, FrameNames(stack), epilogue));
    }
    while |stack| > (if epilogue.Some? then 1 else 0)
      invariant State(pl, ops, pcs, stack) && |pcs| == |order| && Outlined(ops) == Outline(pl, sc, |order|)
      decreases |stack|
    {
      LeftOver(pl, ops, pcs, stack);
      CloseStep(pl, ops, pcs, stack);
      OutlinedOne(ops, EndOp(stack[|stack| - 1]));
      ops := ops + [EndOp(stack[|stack| - 1])];
      stack := stack[..|stack| - 1];
    }
    if epilogue.Some? {
      OnlyShared(pl, ops, pcs, stack);
      FinishedShared(pl, ops, pcs);
      OutlinedOne(ops, BlockEnd(epilogue.value));
      OutlinedOne(ops + [BlockEnd(epilogue.value)], Op.Return);
      ops := ops + [BlockEnd(epilogue.value)];
      ops := ops + [Op.Return];
    } else {
      FinishedPlain(pl, ops, pcs, stack);
    }
    LaidWalks(pl, ops, pcs);
    return Ok(ops), pcs;
  }

  lemma OutlineStart(pl: Plan, sc: Scopes)
    requires pl.Valid()
    ensures Outlined(if pl.epilogue.Some? then [BlockBegin(pl.epilogue.value)] else []) == Outline(pl, sc, 0)
  {
    if pl.epilogue.Some? { assert [BlockBegin(pl.epilogue.value)][..0] == []; }
  }

  /** Of a block's own operations only the content shows. */
  lemma OutlineBody(pl: Plan, sc: Scopes, i: nat, ops: seq<Op>, stack: seq<Frame>)
    requires pl.Valid() && i < |pl.order| && Outlined(ops) == Outline(pl, sc, i) + Section(pl, sc, i)
    requires pl.order[i] < |pl.f| && pl.order[i] in pl.rank
    requires forall s :: s in Successors(pl.f[pl.order[i]]) ==> s in pl.rank
    ensures var b := pl.order[i];
            var tail := TerminatorOps(pl.f[b], b, pl.rank, FrameNames(stack), pl.epilogue);
            Outlined(ops + ([BlockContent(b)] + tail)) == Outline(pl, sc, i + 1)
  {
    hide Outlined, Section, TerminatorOps;
    var b := pl.order[i];
    var tail := TerminatorOps(pl.f[b], b, pl.rank, FrameNames(stack), pl.epilogue);
    TerminatorOpsFlat(pl.f[b], b, pl.rank, FrameNames(stack), pl.epilogue);
    OutlinedNone(tail);
    OutlinedConcat([BlockContent(b)], tail);
    OutlinedConcat(ops, [BlockContent(b)] + tail);
    OutlinedOne([], BlockContent(b));
    assert [] + [BlockContent(b)] == [BlockContent(b)];
    assert Outlined([]) == [] by { OutlinedNone([]); }
  }

  lemma NotCrossing(pl: Plan, stack: seq<Frame>, i: nat)
    requires forall j :: 0 <= j < |stack| ==> EndOf(pl, stack[j]) > i
    ensures !Crossing(pl, stack, i)
  {
  }

  lemma GuardsHold(pl: Plan, before: seq<Frame>, stack: seq<Frame>, i: nat)
    requires pl.Valid() && i < |pl.order| && !Crossing(pl, before, i)
    requires forall j :: 0 <= j < |stack| && stack[j].kind.Landing? && stack[j] !in before ==>
               stack[j].name in pl.rank && pl.rank[stack[j].name] > i
    requires pl.order[i] < |pl.f| && !Unlabelled(Successors(pl.f[pl.order[i]]), FrameNames(stack))
    ensures Labelled(pl, i, FrameNames(stack))
    ensures forall j :: 0 <= j < |stack| && stack[j].kind.Landing? && stack[j].name in pl.rank ==>
              pl.rank[stack[j].name] > i
  {
    forall j | 0 <= j < |stack| && stack[j].kind.Landing? && stack[j].name in pl.rank
      ensures pl.rank[stack[j].name] > i
    {
      if stack[j] in before {
        var k :| 0 <= k < |before| && before[k] == stack[j];
      }
    }
  }

  lemma OnlyShared(pl: Plan, ops: seq<Op>, pcs: seq<nat>, stack: seq<Frame>)
    requires State(pl, ops, pcs, stack) && pl.epilogue.Some? && |stack| <= 1
    ensures stack == [Frame(pl.epilogue.value, Landing)]
  {
    hide Tracks, Written, NamesAt;
  }

  lemma FinishedPlain(pl: Plan, ops: seq<Op>, pcs: seq<nat>, stack: seq<Frame>)
    requires State(pl, ops, pcs, stack) && stack == [] && |pcs| == |pl.order| && pl.epilogue.None?
    ensures Laid(pl, ops, pcs)
  {
    hide Tracks, Written, NamesAt, LaidBlocks;
    Finished(pl, ops, pcs);
  }
}
