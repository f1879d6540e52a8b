/** When loop spans fit: it is enough that their headers dominate them. */
module LoopNesting {
  import opened Cfg
  import opened TrapHoist
  import opened Terminators
  import opened Layout
  import opened Emission
  import opened Landings
  import opened Dominators
  import opened Loops

  /** Every edge to a block that does not come later goes to a dominator of its source. */
  ghost predicate BackwardDominated(pl: Plan, idom: map<Block, Block>)
    requires pl.Valid() && Tree(pl.order, pl.rank, idom)
  {
    forall i, t :: 0 <= i < |pl.order| && EdgeTo(pl, i, t) && pl.rank[t] <= i ==>
      Dominates(pl.order, pl.rank, idom, t, pl.order[i])
  }

  /** Block h dominates every block placed between it and rank m. */
  ghost predicate SpanDominated(pl: Plan, idom: map<Block, Block>, h: Block, m: nat)
    requires pl.Valid() && Tree(pl.order, pl.rank, idom) && h in pl.rank
  {
    forall b :: b in pl.rank && pl.rank[h] <= pl.rank[b] <= m ==> Dominates(pl.order, pl.rank, idom, h, b)
  }

  /** Every header dominates its span. */
  ghost predicate Compact(pl: Plan, idom: map<Block, Block>, loopMax: map<Block, nat>)
    requires pl.Valid() && Tree(pl.order, pl.rank, idom) && forall h :: h in loopMax ==> h in pl.rank
  {
    forall h :: h in loopMax ==> SpanDominated(pl, idom, h, loopMax[h])
  }

  ghost predicate DominatedLoops(pl: Plan, idom: map<Block, Block>, loopMax: map<Block, nat>)
    requires pl.Valid() && Tree(pl.order, pl.rank, idom) && forall h :: h in loopMax ==> h in pl.rank
  {
    BackwardDominated(pl, idom) && Compact(pl, idom, loopMax)
  }

  // ---- bodies of nested loops ----

  /** Whatever leads to a latch clear of the header is dominated by the header. */
  lemma {:induction false} BodyDominated(f: Func, entry: Block, h: Block, latch: Block, path: seq<Block>)
    requires Dom(f, entry, h, latch) && path != [] && LoopPath(f, h, latch, path[0], path)
    ensures Dom(f, entry, h, path[0])
    decreases |path|
  {
    hide Successors, Dom;
    if |path| > 1 {
      PathPart(f, path, 1, |path|);
      assert path[1..|path|] == path[1..] && path[1] in path;
      BodyDominated(f, entry, h, latch, path[1..]);
      DomOfPred(f, entry, h, path[0], path[1]);
    }
  }

  /** Some path to y, from its last visit of the dominator h on, stays clear of a block h does not dominate. */
  lemma PathClearOf(f: Func, entry: Block, g: Block, h: Block, y: Block, path: seq<Block>) returns (tail: seq<Block>)
    requires Dom(f, entry, h, y) && !Dom(f, entry, h, g) && PathFrom(f, entry, y, path)
    ensures PathFrom(f, h, y, tail) && g !in tail
  {
    hide IsPath;
    var k :| 0 <= k < |path| && path[k] == h;
    var i := LastIndex(path, h, k);
    tail := path[i..];
    PathPart(f, path, i, |path|);
    assert path[i..|path|] == tail;
    if g in tail {
      var j :| 0 <= j < |tail| && tail[j] == g;
      var around :| PathFrom(f, entry, g, around) && h !in around;
      Around(f, entry, h, y, path, i, i + j, around);
    }
  }

  lemma {:induction false} LastIndex(path: seq<Block>, h: Block, k: nat) returns (i: nat)
    requires k < |path| && path[k] == h
    ensures k <= i < |path| && path[i] == h && forall j :: i < j < |path| ==> path[j] != h
    decreases |path| - k
  {
    i := k;
    if j :| k < j < |path| && path[j] == h {
      i := LastIndex(path, h, j);
    }
  }

  /** A way round h to a later block of the path contradicts that h dominates its end. */
  lemma Around(f: Func, entry: Block, h: Block, y: Block, path: seq<Block>, i: nat, j: nat, around: seq<Block>)
    requires PathFrom(f, entry, y, path) && i <= j < |path| && (forall k :: i < k < |path| ==> path[k] != h)
    requires PathFrom(f, entry, path[j], around) && h !in around
    ensures !Dom(f, entry, h, y)
  {
    hide Successors;
    if j == |path| - 1 {
      assert PathFrom(f, entry, y, around);
    } else {
      PathPart(f, path, j + 1, |path|);
      var rest := path[j + 1..|path|];
      PathsJoin(f, around, rest);
      assert PathFrom(f, entry, y, around + rest);
      assert forall k :: 0 <= k < |rest| ==> rest[k] == path[j + 1 + k];
    }
  }

  /** The loop of h lies inside the loop of g when a block h dominates does. */
  lemma LoopInside(f: Func, entry: Block, g: Block, latchG: Block, h: Block, latchH: Block, y: Block, x: Block)
    requires Reaches(f, entry, y) && InLoop(f, g, latchG, y) && Dom(f, entry, h, y) && !Dom(f, entry, h, g)
    requires InLoop(f, h, latchH, x) && Dom(f, entry, h, latchH) && latchH < |f| && h in Successors(f[latchH])
    ensures InLoop(f, g, latchG, x)
  {
    hide Successors, Dom, IsPath;
    var path := SomePath(f, entry, y);
    var tail := PathClearOf(f, entry, g, h, y, path);
    var toG :| LoopPath(f, g, latchG, y, toG);
    var toH :| LoopPath(f, h, latchH, x, toH);
    if g in toH {
      var k :| 0 <= k < |toH| && toH[k] == g;
      PathPart(f, toH, k, |toH|);
      assert forall j :: 0 <= j < |toH[k..|toH|]| ==> toH[k..|toH|][j] in toH;
      BodyDominated(f, entry, h, latchH, toH[k..|toH|]);
    }
    var through := Meet(f, tail, toG);
    PathsJoin(f, toH, through);
    assert LoopPath(f, g, latchG, x, toH + through);
  }

  lemma SomePath(f: Func, entry: Block, y: Block) returns (path: seq<Block>)
    requires Reaches(f, entry, y)
    ensures PathFrom(f, entry, y, path)
  {
    path :| IsPath(f, path) && path[0] == entry && path[|path| - 1] == y;
  }

  lemma Meet(f: Func, a: seq<Block>, b: seq<Block>) returns (r: seq<Block>)
    requires IsPath(f, a) && IsPath(f, b) && a[|a| - 1] == b[0]
    ensures PathFrom(f, a[0], b[|b| - 1], r) && forall x :: x in r ==> x in a || x in b
  {
    hide Successors;
    r := b;
    if |a| > 1 {
      PathPart(f, a, 0, |a| - 1);
      PathsJoin(f, a[0..|a| - 1], b);
      r := a[0..|a| - 1] + b;
    }
  }

  // ---- spans ----

  /** What holds of a function, an order of its blocks and its immediate dominators. */
  ghost predicate Ordered(pl: Plan, idom: map<Block, Block>) {
    && pl.Valid() && Entered(pl.f, pl.order) && Immediate(pl.f, pl.order, idom)
    && Tree(pl.order, pl.rank, idom)
  }

  lemma OrderedChain(pl: Plan, idom: map<Block, Block>, d: Block, b: Block)
    requires Ordered(pl, idom) && b in pl.rank
    ensures Dominates(pl.order, pl.rank, idom, d, b) <==> Dom(pl.f, pl.order[0], d, b)
  {
    hide Immediate, Tree, Closed, Ranks, Entered;
    ChainExact(pl.f, pl.order, pl.rank, idom, d, b);
  }

  lemma OrderedReaches(pl: Plan, idom: map<Block, Block>, b: Block)
    requires Ordered(pl, idom) && b in pl.rank
    ensures Reaches(pl.f, pl.order[0], b)
  {
    hide Immediate, Tree, Closed, Entered, IsPath;
    var path := EnteredPath(pl.f, pl.order, pl.rank[b]);
  }

  lemma NotDominatedByLater(pl: Plan, idom: map<Block, Block>, h: Block, g: Block)
    requires Ordered(pl, idom) && h in pl.rank && g in pl.rank && pl.rank[g] < pl.rank[h]
    ensures !Dom(pl.f, pl.order[0], h, g)
  {
    hide Immediate, Tree, Closed, Entered, Dom;
    if Dom(pl.f, pl.order[0], h, g) {
      DomEarlier(pl.f, pl.order, pl.rank, h, g);
    }
  }

  /** The last block of a span that goes past its header. */
  lemma SpanLast(pl: Plan, idom: map<Block, Block>, loopMax: map<Block, nat>, h: Block) returns (b: Block, latch: Block)
    requires pl.Valid() && Tree(pl.order, pl.rank, idom) && Spans(pl, idom, loopMax)
    requires h in loopMax && pl.rank[h] < loopMax[h]
    ensures b in pl.rank && pl.rank[b] == loopMax[h] && BackEdge(pl, idom, latch, h) && InLoop(pl.f, h, latch, b)
  {
    hide InLoop, BackEdge, Tree, Closed, Ranks;
    assert IsSpan(pl, idom, h, loopMax[h]);
    b :| InBody(pl, idom, h, b) && pl.rank[b] == loopMax[h];
    latch :| BackEdge(pl, idom, latch, h) && InLoop(pl.f, h, latch, b);
  }

  lemma SpanCovers(pl: Plan, idom: map<Block, Block>, loopMax: map<Block, nat>, h: Block, latch: Block, b: Block)
    requires pl.Valid() && Tree(pl.order, pl.rank, idom) && Spans(pl, idom, loopMax)
    requires h in pl.rank && BackEdge(pl, idom, latch, h)
    ensures h in loopMax && pl.rank[h] <= loopMax[h]
    ensures b in pl.rank && InLoop(pl.f, h, latch, b) ==> pl.rank[b] <= loopMax[h]
  {
    hide InLoop, BackEdge, Tree, Closed, Ranks;
    assert IsSpan(pl, idom, h, loopMax[h]);
    if b in pl.rank && InLoop(pl.f, h, latch, b) {
      assert InBody(pl, idom, h, b);
    }
  }

  lemma SpansRanked(pl: Plan, idom: map<Block, Block>, loopMax: map<Block, nat>)
    requires pl.Valid() && Tree(pl.order, pl.rank, idom) && Spans(pl, idom, loopMax)
    ensures forall h :: h in loopMax ==> h in pl.rank && pl.rank[h] <= loopMax[h] < |pl.order|
  {
    hide InBody, BackEdge, Tree, Closed;
    forall h | h in loopMax
      ensures h in pl.rank && pl.rank[h] <= loopMax[h] < |pl.order|
    {
      assert IsSpan(pl, idom, h, loopMax[h]);
      if loopMax[h] != pl.rank[h] {
        var b, latch := SpanLast(pl, idom, loopMax, h);
      }
    }
  }

  lemma BackEdgeParts(pl: Plan, idom: map<Block, Block>, p: Block, h: Block)
    requires Ordered(pl, idom) && BackEdge(pl, idom, p, h)
    ensures p < |pl.f| && h in Successors(pl.f[p]) && Dom(pl.f, pl.order[0], h, p)
  {
    hide Ordered, Dom, Dominates;
    OrderedChain(pl, idom, h, p);
  }

  /** A span that its header dominates crosses none that opens earlier. */
  lemma SpansNest(pl: Plan, idom: map<Block, Block>, loopMax: map<Block, nat>, g: Block, h: Block)
    requires Ordered(pl, idom) && Spans(pl, idom, loopMax) && g in loopMax && h in loopMax
    requires g in pl.rank && h in pl.rank && SpanDominated(pl, idom, h, loopMax[h])
    ensures !(pl.rank[g] < pl.rank[h] <= loopMax[g] < loopMax[h])
  {
    hide Ordered, Spans, BackEdge, InLoop, Dom, Dominates, Tree, Closed, Ranks, Reaches, Successors;
    OrderedParts(pl, idom);
    SpansRanked(pl, idom, loopMax);
    if pl.rank[g] < pl.rank[h] <= loopMax[g] < loopMax[h] {
      var y, latchG := SpanLast(pl, idom, loopMax, g);
      var x, latchH := SpanLast(pl, idom, loopMax, h);
      OrderedChain(pl, idom, h, y);
      BackEdgeParts(pl, idom, latchH, h);
      OrderedReaches(pl, idom, y);
      NotDominatedByLater(pl, idom, h, g);
      LoopInside(pl.f, pl.order[0], g, latchG, h, latchH, y, x);
      SpanCovers(pl, idom, loopMax, g, latchG, x);
    }
  }

  /** A backward edge to a dominator stays within the span of the loop it closes. */
  lemma BackEdgeInside(pl: Plan, idom: map<Block, Block>, loopMax: map<Block, nat>, i: nat, t: Block)
    requires pl.Valid() && Tree(pl.order, pl.rank, idom) && Spans(pl, idom, loopMax)
    requires i < |pl.order| && EdgeTo(pl, i, t) && pl.rank[t] <= i && Dominates(pl.order, pl.rank, idom, t, pl.order[i])
    ensures t in loopMax && loopMax[t] >= i
  {
    hide Dominates, Tree, Closed, Successors, Spans;
    var p := pl.order[i];
    OrderedSuccessors(pl, i);
    SpanCovers(pl, idom, loopMax, t, p, p);
    if p != t {
      assert LoopPath(pl.f, t, p, p, [p]);
    }
  }

  /** A header that dominates a block other than itself dominates where its landing first opens. */
  lemma OpensInside(pl: Plan, idom: map<Block, Block>, openings: map<Block, nat>, h: Block, t: Block)
    requires Ordered(pl, idom) && OpensAtDominator(pl, idom, openings) && t in openings
    requires h in pl.rank && h != t && Dominates(pl.order, pl.rank, idom, h, t)
    ensures openings[t] < |pl.order| && pl.rank[h] <= openings[t]
  {
    hide Ordered, Closed, Tree, ForwardPreds, Dominates, EdgeTo, Dom;
    OrderedParts(pl, idom);
    var preds := ForwardPreds(pl, t, |pl.order|);
    assert IsOpening(pl, idom, t, openings[t]);
    forall k | 0 <= k < |preds|
      ensures Dominates(pl.order, pl.rank, idom, h, preds[k])
    {
      ForwardPredsExact(pl, t, |pl.order|, preds[k]);
      OrderedSuccessors(pl, pl.rank[preds[k]]);
      DominatesPred(pl, idom, h, preds[k], t);
    }
    DominatorEarlier(pl.order, pl.rank, idom, h, pl.order[openings[t]]);
  }

  lemma OrderedParts(pl: Plan, idom: map<Block, Block>)
    requires Ordered(pl, idom)
    ensures pl.Valid() && Tree(pl.order, pl.rank, idom)
  {
  }

  lemma DominatesPred(pl: Plan, idom: map<Block, Block>, h: Block, p: Block, t: Block)
    requires Ordered(pl, idom) && h != t && t in pl.rank && p in pl.rank && EdgeTo(pl, pl.rank[p], t)
    requires Dominates(pl.order, pl.rank, idom, h, t)
    ensures Dominates(pl.order, pl.rank, idom, h, p)
  {
    hide Immediate, Tree, Entered, Dom, Dominates, Successors;
    OrderedSuccessors(pl, pl.rank[p]);
    OrderedSuccessors(pl, pl.rank[t]);
    OrderedChain(pl, idom, h, t);
    OrderedChain(pl, idom, h, p);
    DomOfPred(pl.f, pl.order[0], h, p, t);
  }
}
