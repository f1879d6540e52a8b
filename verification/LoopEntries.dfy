/** What a conversion that succeeds shows of its loops: their spans are entered only by the header. */
module LoopEntries {
  import opened Cfg
  import opened TrapHoist
  import opened Terminators
  import opened Layout
  import opened Emission
  import opened Landings
  import opened Dominators
  import opened Loops
  import opened LoopNesting

  // ---- one entry ----

  /** Edges into the ranks after h up to m come from h or from these ranks. */
  ghost predicate OneEntry(pl: Plan, h: Block, m: nat)
    requires pl.Valid() && h in pl.rank
  {
    forall i, t :: 0 <= i < |pl.order| && EdgeTo(pl, i, t) && pl.rank[h] < pl.rank[t] <= m ==> pl.rank[h] <= i <= m
  }

  /** So a path from the entry that stays clear of h stays clear of them all. */
  lemma {:induction false} StaysOutside(pl: Plan, h: Block, m: nat, path: seq<Block>, k: nat)
    requires pl.Valid() && h in pl.rank && OneEntry(pl, h, m)
    requires IsPath(pl.f, path) && path[0] == pl.order[0] && h !in path && k < |path|
    ensures path[k] in pl.rank && !(pl.rank[h] <= pl.rank[path[k]] <= m)
  {
    hide Closed, Successors;
    RankOf(pl);
    assert path[k] in path;
    if k > 0 {
      StaysOutside(pl, h, m, path, k - 1);
      var p := path[k - 1];
      OrderedSuccessors(pl, pl.rank[p]);
      assert path[k - 1 + 1] in Successors(pl.f[path[k - 1]]);
      assert EdgeTo(pl, pl.rank[p], path[k]);
    }
  }

  lemma OneEntryDominates(pl: Plan, idom: map<Block, Block>, h: Block, m: nat)
    requires Ordered(pl, idom) && h in pl.rank && OneEntry(pl, h, m)
    ensures SpanDominated(pl, idom, h, m)
  {
    hide Immediate, Tree, Closed, Ranks, Entered, OneEntry, Dominates, Successors;
    forall b | b in pl.rank && pl.rank[h] <= pl.rank[b] <= m
      ensures Dominates(pl.order, pl.rank, idom, h, b)
    {
      forall path | PathFrom(pl.f, pl.order[0], b, path)
        ensures h in path
      {
        if h !in path { StaysOutside(pl, h, m, path, |path| - 1); }
      }
      OrderedChain(pl, idom, h, b);
    }
  }

  // ---- what the guards let through ----

  /** Landings open before the sources of forward edges. */
  ghost predicate OpenInTime(pl: Plan, sc: Scopes)
    requires pl.Valid() && ScopesValid(pl, sc)
  {
    forall i, t :: 0 <= i < |pl.order| && EdgeTo(pl, i, t) && pl.rank[t] > i ==> t in sc.starts && sc.starts[t] <= i
  }

  ghost predicate LetThrough(pl: Plan, sc: Scopes)
    requires pl.Valid() && ScopesValid(pl, sc)
  {
    OpenInTime(pl, sc) && LandingsClear(pl, sc, |pl.order|) && EdgesCovered(pl, sc, |pl.order|)
  }

  /** A forward edge into a span from before it would have a landing that opens before the loop. */
  lemma NotFromBefore(pl: Plan, sc: Scopes, h: Block, i: nat, t: Block)
    requires pl.Valid() && ScopesValid(pl, sc) && LetThrough(pl, sc) && h in sc.loopMax
    requires i < |pl.order| && EdgeTo(pl, i, t) && pl.rank[h] < pl.rank[t] <= sc.loopMax[h]
    ensures pl.rank[h] <= i
  {
    hide EdgesCovered, EdgeTo, Closed;
  }

  /** A backward one from behind it needs a span that crosses it. */
  lemma CrossingSpan(pl: Plan, sc: Scopes, h: Block, i: nat, t: Block) returns (g: Block)
    requires pl.Valid() && ScopesValid(pl, sc) && LetThrough(pl, sc) && h in sc.loopMax
    requires i < |pl.order| && EdgeTo(pl, i, t) && pl.rank[h] < pl.rank[t] <= sc.loopMax[h] < i
    ensures g in sc.loopMax && pl.rank[h] < pl.rank[g] <= sc.loopMax[h] < sc.loopMax[g]
  {
    hide LandingsClear, OpenInTime, EdgeTo, Closed;
    assert CoveredTo(pl, sc, t, i + 1);
    assert InSpan(pl, sc, t, sc.loopMax[h] + 1);
    g :| g in sc.loopMax && pl.rank[t] <= pl.rank[g] < sc.loopMax[h] + 1 <= sc.loopMax[g];
  }

  /** So every header dominates its span: from the last header to the first. */
  lemma {:induction false} SpanNeeded(pl: Plan, idom: map<Block, Block>, sc: Scopes, h: Block)
    requires Ordered(pl, idom) && ScopesValid(pl, sc) && Spans(pl, idom, sc.loopMax) && LetThrough(pl, sc)
    requires h in sc.loopMax
    ensures SpanDominated(pl, idom, h, sc.loopMax[h])
    decreases |pl.order| - pl.rank[h]
  {
    hide Ordered, Spans, LetThrough, SpanDominated, EdgeTo, Closed, Ranks, Tree;
    OrderedParts(pl, idom);
    RankOf(pl);
    forall i, t | 0 <= i < |pl.order| && EdgeTo(pl, i, t) && pl.rank[h] < pl.rank[t] <= sc.loopMax[h]
      ensures pl.rank[h] <= i <= sc.loopMax[h]
    {
      NotFromBefore(pl, sc, h, i, t);
      if i > sc.loopMax[h] {
        var g := CrossingSpan(pl, sc, h, i, t);
        SpanNeeded(pl, idom, sc, g);
        SpansNest(pl, idom, sc.loopMax, h, g);
      }
    }
    OneEntryDominates(pl, idom, h, sc.loopMax[h]);
  }

  /** Spans reaching from t to rank r pass on its dominance. */
  lemma {:induction false} DominatesAlong(pl: Plan, idom: map<Block, Block>, sc: Scopes, t: Block, n: nat, r: nat)
    requires pl.Valid() && Tree(pl.order, pl.rank, idom) && ScopesValid(pl, sc) && Compact(pl, idom, sc.loopMax)
    requires t in pl.rank && CoveredTo(pl, sc, t, n) && pl.rank[t] <= r < n && r < |pl.order|
    ensures Dominates(pl.order, pl.rank, idom, t, pl.order[r])
  {
    hide Dominates, Tree, Closed, Ranks;
    RankOf(pl);
    if r == pl.rank[t] {
      SelfDominates(pl.order, pl.rank, idom, t);
      assert Dominates(pl.order, pl.rank, idom, t, [t][0]);
    } else {
      assert InSpan(pl, sc, t, r);
      var g :| g in sc.loopMax && pl.rank[t] <= pl.rank[g] < r <= sc.loopMax[g];
      DominatesAlong(pl, idom, sc, t, n, pl.rank[g]);
      assert SpanDominated(pl, idom, g, sc.loopMax[g]);
      DominatesTransitive(pl.order, pl.rank, idom, t, g, pl.order[r]);
    }
  }

  /** Success needs backward edges to dominators and headers that dominate their spans. */
  lemma DominatedNeeded(pl: Plan, idom: map<Block, Block>, sc: Scopes)
    requires Ordered(pl, idom) && ScopesValid(pl, sc) && Spans(pl, idom, sc.loopMax) && LetThrough(pl, sc)
    ensures DominatedLoops(pl, idom, sc.loopMax)
  {
    hide Ordered, Spans, SpanDominated, Dominates, EdgeTo, Closed, Ranks, Tree, CoveredTo, LandingsClear, OpenInTime;
    OrderedParts(pl, idom);
    RankOf(pl);
    forall h | h in sc.loopMax ensures SpanDominated(pl, idom, h, sc.loopMax[h]) {
      SpanNeeded(pl, idom, sc, h);
    }
    forall i, t | 0 <= i < |pl.order| && EdgeTo(pl, i, t) && pl.rank[t] <= i
      ensures Dominates(pl.order, pl.rank, idom, t, pl.order[i])
    {
      DominatesAlong(pl, idom, sc, t, i + 1, i);
    }
  }
}
