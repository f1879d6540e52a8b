/** Where landing scopes open: at the nearest common dominator of the forward
    predecessors, then moved out until no two scopes cross. */
module Landings {
  import opened Cfg
  import opened Terminators
  import opened Layout
  import opened Emission

  // ---- dominators ----

  /** Immediate dominators as a tree over the ordered blocks: each block but the first
      has one, and it comes earlier. */
  ghost predicate Tree(order: seq<Block>, rank: map<Block, nat>, idom: map<Block, Block>)
    requires Ranks(order, rank) && order != []
  {
    forall b :: b in rank && b != order[0] ==> b in idom && idom[b] in rank && rank[idom[b]] < rank[b]
  }

  /** A block and its dominators up to the first block, nearest first. */
  function Chain(order: seq<Block>, rank: map<Block, nat>, idom: map<Block, Block>, b: Block): (r: seq<Block>)
    requires order != [] && Ranks(order, rank) && Tree(order, rank, idom) && b in rank
    ensures r != [] && r[0] == b && r[|r| - 1] == order[0]
    ensures forall k :: 0 <= k < |r| ==> r[k] in rank && rank[r[k]] <= rank[b]
    decreases rank[b]
  {
    if b == order[0] then [b] else [b] + Chain(order, rank, idom, idom[b])
  }

  predicate Dominates(order: seq<Block>, rank: map<Block, nat>, idom: map<Block, Block>, d: Block, b: Block)
    requires order != [] && Ranks(order, rank) && Tree(order, rank, idom) && b in rank
  {
    d in Chain(order, rank, idom, b)
  }

  lemma {:induction false} DominatesTransitive(order: seq<Block>, rank: map<Block, nat>, idom: map<Block, Block>,
                                               c: Block, d: Block, b: Block)
    requires order != [] && Ranks(order, rank) && Tree(order, rank, idom) && b in rank && d in rank
    requires Dominates(order, rank, idom, c, d) && Dominates(order, rank, idom, d, b)
    ensures Dominates(order, rank, idom, c, b)
    decreases rank[b]
  {
    if b != order[0] && d != b {
      DominatesTransitive(order, rank, idom, c, d, idom[b]);
    }
  }

  ghost predicate IsNearest(order: seq<Block>, rank: map<Block, nat>, idom: map<Block, Block>, d: Block, bs: seq<Block>)
    requires order != [] && Ranks(order, rank) && Tree(order, rank, idom)
    requires forall k :: 0 <= k < |bs| ==> bs[k] in rank
  {
    && d in rank
    && (forall k :: 0 <= k < |bs| ==> Dominates(order, rank, idom, d, bs[k]))
    && (forall c :: c in rank && (forall k :: 0 <= k < |bs| ==> Dominates(order, rank, idom, c, bs[k])) ==>
          Dominates(order, rank, idom, c, d))
  }

  /** Walks up from b until it meets a dominator of a. */
  method NearestOfTwo(order: seq<Block>, rank: map<Block, nat>, idom: map<Block, Block>, a: Block, b: Block)
    returns (d: Block)
    requires order != [] && Ranks(order, rank) && Tree(order, rank, idom) && a in rank && b in rank
    ensures d in rank && Dominates(order, rank, idom, d, a) && Dominates(order, rank, idom, d, b)
    ensures forall c :: c in rank && Dominates(order, rank, idom, c, a) && Dominates(order, rank, idom, c, b) ==>
              Dominates(order, rank, idom, c, d)
  {
    var ancestors := Chain(order, rank, idom, a);
    d := b;
    while d !in ancestors
      invariant d in rank && Dominates(order, rank, idom, d, b)
      invariant forall c :: c in rank && Dominates(order, rank, idom, c, a) && Dominates(order, rank, idom, c, b) ==>
                  Dominates(order, rank, idom, c, d)
      decreases rank[d]
    {
      assert ancestors[|ancestors| - 1] == order[0];
      DominatesTransitive(order, rank, idom, idom[d], d, b) by { ParentDominates(order, rank, idom, d); }
      d := idom[d];
    }
  }

  lemma ParentDominates(order: seq<Block>, rank: map<Block, nat>, idom: map<Block, Block>, b: Block)
    requires order != [] && Ranks(order, rank) && Tree(order, rank, idom) && b in rank && b != order[0]
    ensures Dominates(order, rank, idom, idom[b], b)
  {
    var rest := Chain(order, rank, idom, idom[b]);
    assert rest[0] in rest;
  }

  lemma DominatorEarlier(order: seq<Block>, rank: map<Block, nat>, idom: map<Block, Block>, d: Block, b: Block)
    requires order != [] && Ranks(order, rank) && Tree(order, rank, idom) && b in rank
    requires Dominates(order, rank, idom, d, b)
    ensures d in rank && rank[d] <= rank[b]
  {
  }

  method NearestOf(order: seq<Block>, rank: map<Block, nat>, idom: map<Block, Block>, bs: seq<Block>)
    returns (d: Block)
    requires order != [] && Ranks(order, rank) && Tree(order, rank, idom)
    requires bs != [] && forall k :: 0 <= k < |bs| ==> bs[k] in rank
    ensures IsNearest(order, rank, idom, d, bs)
  {
    hide Chain, Dominates, IsNearest, Ranks, Tree;
    d := bs[0];
    SelfDominates(order, rank, idom, d);
    assert bs[..1] == [d];
    for k := 1 to |bs|
      invariant d in rank && IsNearest(order, rank, idom, d, bs[..k])
    {
      var e := NearestOfTwo(order, rank, idom, d, bs[k]);
      NearestExtend(order, rank, idom, d, e, bs[..k], bs[k]);
      assert bs[..k + 1] == bs[..k] + [bs[k]];
      d := e;
    }
    assert bs[..|bs|] == bs;
  }

  lemma SelfDominates(order: seq<Block>, rank: map<Block, nat>, idom: map<Block, Block>, b: Block)
    requires order != [] && Ranks(order, rank) && Tree(order, rank, idom) && b in rank
    ensures IsNearest(order, rank, idom, b, [b])
  {
    var r := Chain(order, rank, idom, b);
    assert r[0] in r;
    forall c | c in rank && forall k :: 0 <= k < 1 ==> Dominates(order, rank, idom, c, [b][k])
      ensures Dominates(order, rank, idom, c, b)
    {
      assert Dominates(order, rank, idom, c, [b][0]);
    }
  }

  lemma NearestExtend(order: seq<Block>, rank: map<Block, nat>, idom: map<Block, Block>,
                      d: Block, e: Block, bs: seq<Block>, b: Block)
    requires order != [] && Ranks(order, rank) && Tree(order, rank, idom) && b in rank
    requires (forall k :: 0 <= k < |bs| ==> bs[k] in rank) && IsNearest(order, rank, idom, d, bs)
    requires e in rank && Dominates(order, rank, idom, e, d) && Dominates(order, rank, idom, e, b)
    requires forall c :: c in rank && Dominates(order, rank, idom, c, d) && Dominates(order, rank, idom, c, b) ==>
               Dominates(order, rank, idom, c, e)
    ensures IsNearest(order, rank, idom, e, bs + [b])
  {
    hide Dominates;
    var all := bs + [b];
    forall k | 0 <= k < |all| ensures Dominates(order, rank, idom, e, all[k]) {
      if k < |bs| { DominatesTransitive(order, rank, idom, e, d, bs[k]); }
    }
    forall c | c in rank && forall k :: 0 <= k < |all| ==> Dominates(order, rank, idom, c, all[k])
      ensures Dominates(order, rank, idom, c, e)
    {
      assert Dominates(order, rank, idom, c, all[|bs|]);
      forall k | 0 <= k < |bs| ensures Dominates(order, rank, idom, c, bs[k]) {
        assert Dominates(order, rank, idom, c, all[k]);
      }
    }
  }

  // ---- forward predecessors ----

  /** Blocks before rank hi with an edge forward to t. */
  ghost function ForwardPreds(pl: Plan, t: Block, hi: nat): seq<Block>
    requires pl.Valid() && t in pl.rank && hi <= |pl.order|
  {
    if hi == 0 then []
    else ForwardPreds(pl, t, hi - 1)
         + if EdgeTo(pl, hi - 1, t) && hi - 1 < pl.rank[t] then [pl.order[hi - 1]] else []
  }

  lemma {:induction false} ForwardPredsExact(pl: Plan, t: Block, hi: nat, b: Block)
    requires pl.Valid() && t in pl.rank && hi <= |pl.order|
    ensures b in ForwardPreds(pl, t, hi) <==>
            b in pl.rank && pl.rank[b] < hi && pl.rank[b] < pl.rank[t] && EdgeTo(pl, pl.rank[b], t)
  {
    hide EdgeTo, Closed, Ranks;
    if hi > 0 {
      ForwardPredsExact(pl, t, hi - 1, b);
      RankOf(pl);
    }
  }

  /** For every block entered by a forward edge, the rank of the nearest common
      dominator of all blocks that enter it so. */
  ghost predicate OpensAtDominator(pl: Plan, idom: map<Block, Block>, openings: map<Block, nat>)
    requires pl.Valid() && Tree(pl.order, pl.rank, idom)
  {
    && (forall t :: t in openings <==> t in pl.rank && ForwardPreds(pl, t, |pl.order|) != [])
    && (forall t :: t in openings ==> openings[t] < |pl.order|)
    && (forall t :: t in openings ==> IsOpening(pl, idom, t, openings[t]))
  }

  ghost predicate IsOpening(pl: Plan, idom: map<Block, Block>, t: Block, s: nat)
    requires pl.Valid() && Tree(pl.order, pl.rank, idom) && t in pl.rank && s < |pl.order|
  {
    var preds := ForwardPreds(pl, t, |pl.order|);
    (forall k :: 0 <= k < |preds| ==> preds[k] in pl.rank) && IsNearest(pl.order, pl.rank, idom, pl.order[s], preds)
  }

  lemma ForwardPredsNone(pl: Plan, t: Block)
    requires pl.Valid() && t in pl.rank
    ensures ForwardPreds(pl, t, 0) == []
  {
  }

  lemma ForwardPredsStep(pl: Plan, t: Block, k: nat)
    requires pl.Valid() && t in pl.rank && k < |pl.order|
    ensures pl.order[k] < |pl.f|
    ensures ForwardPreds(pl, t, k + 1) ==
            if t in Successors(pl.f[pl.order[k]]) && k < pl.rank[t] then ForwardPreds(pl, t, k) + [pl.order[k]]
            else ForwardPreds(pl, t, k)
  {
    OrderedSuccessors(pl, k);
  }

  method Collect(pl: Plan, t: Block) returns (preds: seq<Block>)
    requires pl.Valid() && t in pl.rank
    ensures preds == ForwardPreds(pl, t, |pl.order|)
  {
    hide Closed, Ranks, ForwardPreds;
    preds := [];
    ForwardPredsNone(pl, t);
    for k := 0 to |pl.order|
      invariant preds == ForwardPreds(pl, t, k)
    {
      OrderedSuccessors(pl, k);
      ForwardPredsStep(pl, t, k);
      if t in Successors(pl.f[pl.order[k]]) && k < pl.rank[t] {
        preds := preds + [pl.order[k]];
      }
    }
  }

  method Openings(pl: Plan, idom: map<Block, Block>) returns (openings: map<Block, nat>)
    requires pl.Valid() && Tree(pl.order, pl.rank, idom)
    ensures OpensAtDominator(pl, idom, openings)
  {
    hide ForwardPreds, Tree, IsOpening, IsNearest, Ranks, Closed;
    openings := map[];
    for r := 0 to |pl.order|
      invariant forall t :: t in openings <==>
                  t in pl.rank && pl.rank[t] < r && ForwardPreds(pl, t, |pl.order|) != []
      invariant forall t :: t in openings ==> openings[t] < |pl.order| && IsOpening(pl, idom, t, openings[t])
    {
      var t := pl.order[r];
      RankOf(pl);
      var preds := Collect(pl, t);
      if preds != [] {
        PredsRanked(pl, t, preds);
        var d := NearestOf(pl.order, pl.rank, idom, preds);
        OpeningFrom(pl, idom, t, preds, d);
        openings := openings[t := pl.rank[d]];
      }
    }
    RankOf(pl);
  }

  lemma RankOf(pl: Plan)
    requires pl.Valid()
    ensures forall r :: 0 <= r < |pl.order| ==> pl.order[r] in pl.rank && pl.rank[pl.order[r]] == r
    ensures forall t :: t in pl.rank ==> pl.rank[t] < |pl.order| && pl.order[pl.rank[t]] == t
  {
  }

  lemma PredsRanked(pl: Plan, t: Block, preds: seq<Block>)
    requires pl.Valid() && t in pl.rank && preds == ForwardPreds(pl, t, |pl.order|)
    ensures forall k :: 0 <= k < |preds| ==> preds[k] in pl.rank
  {
    forall k | 0 <= k < |preds| ensures preds[k] in pl.rank {
      ForwardPredsExact(pl, t, |pl.order|, preds[k]);
    }
  }

  lemma OpeningFrom(pl: Plan, idom: map<Block, Block>, t: Block, preds: seq<Block>, d: Block)
    requires pl.Valid() && Tree(pl.order, pl.rank, idom) && t in pl.rank && preds == ForwardPreds(pl, t, |pl.order|)
    requires (forall k :: 0 <= k < |preds| ==> preds[k] in pl.rank) && IsNearest(pl.order, pl.rank, idom, d, preds)
    ensures d in pl.rank && pl.rank[d] < |pl.order| && IsOpening(pl, idom, t, pl.rank[d])
  {
  }

  /** A landing opens at or before the source of every forward edge to its block. */
  lemma OpensBeforeSources(pl: Plan, idom: map<Block, Block>, openings: map<Block, nat>, i: nat, t: Block)
    requires pl.Valid() && Tree(pl.order, pl.rank, idom) && OpensAtDominator(pl, idom, openings)
    requires i < |pl.order| && EdgeTo(pl, i, t) && pl.rank[t] > i
    ensures t in openings && openings[t] <= i
  {
    hide ForwardPreds, Chain;
    var preds := ForwardPreds(pl, t, |pl.order|);
    assert pl.rank[pl.order[i]] == i;
    ForwardPredsExact(pl, t, |pl.order|, pl.order[i]);
    assert IsOpening(pl, idom, t, openings[t]);
    var k :| 0 <= k < |preds| && preds[k] == pl.order[i];
    DominatorEarlier(pl.order, pl.rank, idom, pl.order[openings[t]], preds[k]);
  }

  lemma OpensBeforeTarget(pl: Plan, idom: map<Block, Block>, openings: map<Block, nat>, t: Block)
    requires pl.Valid() && Tree(pl.order, pl.rank, idom) && OpensAtDominator(pl, idom, openings) && t in openings
    ensures openings[t] < pl.rank[t]
  {
    hide ForwardPreds, Chain;
    var preds := ForwardPreds(pl, t, |pl.order|);
    ForwardPredsExact(pl, t, |pl.order|, preds[0]);
    OpensBeforeSources(pl, idom, openings, pl.rank[preds[0]], t);
  }

  lemma DominatesBoth(order: seq<Block>, rank: map<Block, nat>, idom: map<Block, Block>, c: Block, d: Block)
    requires order != [] && Ranks(order, rank) && Tree(order, rank, idom) && c in rank && d in rank
    requires Dominates(order, rank, idom, c, d) && Dominates(order, rank, idom, d, c)
    ensures c == d
  {
    DominatorEarlier(order, rank, idom, c, d);
    DominatorEarlier(order, rank, idom, d, c);
    assert order[rank[c]] == c && order[rank[d]] == d;
  }

  lemma OpeningSame(pl: Plan, idom: map<Block, Block>, t: Block, x: nat, y: nat)
    requires pl.Valid() && Tree(pl.order, pl.rank, idom) && t in pl.rank && x < |pl.order| && y < |pl.order|
    requires IsOpening(pl, idom, t, x) && IsOpening(pl, idom, t, y)
    ensures x == y
  {
    hide Tree, Closed, ForwardPreds, Dominates;
    DominatesBoth(pl.order, pl.rank, idom, pl.order[x], pl.order[y]);
  }

  lemma OpeningsUnique(pl: Plan, idom: map<Block, Block>, a: map<Block, nat>, b: map<Block, nat>)
    requires pl.Valid() && Tree(pl.order, pl.rank, idom) && OpensAtDominator(pl, idom, a)
    requires OpensAtDominator(pl, idom, b)
    ensures a == b
  {
    hide Tree, Closed, Ranks, ForwardPreds, IsOpening;
    assert a.Keys == b.Keys;
    forall t | t in a
      ensures a[t] == b[t]
    {
      OpeningSame(pl, idom, t, a[t], b[t]);
    }
  }
}
