/** Natural loops: which blocks belong to the loop of a header, and how far along the
    order the last of them lies. */
module Loops {
  import opened Cfg
  import opened TrapHoist
  import opened Terminators
  import opened Layout
  import opened Landings
  import opened Dominators
  import opened Sequences
  import opened Wrappers

  // ---- predecessors ----

  /** One entry for each edge into b. */
  function Preds(f: Func, b: Block): (r: seq<Block>)
    ensures |r| == PredCount(f, b)
  {
    if f == [] then []
    else
      var p := |f| - 1;
      Preds(f[..p], b) + seq(Count(Successors(f[p]), b), _ => p)
  }

  lemma {:induction false} PredsExact(f: Func, b: Block, p: Block)
    ensures p in Preds(f, b) <==> p < |f| && b in Successors(f[p])
  {
    hide Successors;
    if f != [] {
      var last := |f| - 1;
      PredsExact(f[..last], b, p);
      CountIn(Successors(f[last]), b);
      var tail := seq(Count(Successors(f[last]), b), _ => last);
      assert tail != [] ==> tail[0] == last;
      assert Preds(f, b) == Preds(f[..last], b) + tail;
    }
  }

  // ---- the blocks of a loop ----

  /** A path from b to the source of a back edge stays clear of the header. */
  ghost predicate InLoop(f: Func, header: Block, latch: Block, b: Block) {
    exists path :: LoopPath(f, header, latch, b, path)
  }

  ghost predicate LoopPath(f: Func, header: Block, latch: Block, b: Block, path: seq<Block>) {
    PathFrom(f, b, latch, path) && header !in path
  }

  lemma InLoopStep(f: Func, header: Block, latch: Block, p: Block, b: Block)
    requires InLoop(f, header, latch, b) && p < |f| && b in Successors(f[p]) && p != header
    ensures InLoop(f, header, latch, p)
  {
    hide Successors;
    var path :| LoopPath(f, header, latch, b, path);
    PathsJoin(f, [p], path);
    assert LoopPath(f, header, latch, p, [p] + path);
  }

  function RankOr0(rank: map<Block, nat>, b: Block): nat {
    if b in rank then rank[b] else 0
  }

  /** What the backward search has settled for a block it is done with. */
  ghost predicate Handled(pl: Plan, header: Block, m: nat, visited: set<Block>, b: Block) {
    RankOr0(pl.rank, b) <= m && forall p :: p in Preds(pl.f, b) && p != header ==> p in visited
  }

  ghost predicate Searching(pl: Plan, header: Block, latch: Block, m: nat, visited: set<Block>, stack: seq<Block>) {
    && latch in visited && visited <= Below(|pl.f|) && (forall b :: b in stack ==> b in visited)
    && (forall b :: b in visited ==> if b == header then latch == header else InLoop(pl.f, header, latch, b))
    && (forall b :: b in visited && b !in stack && b != header ==> Handled(pl, header, m, visited, b))
    && Attained(pl, header, latch, m)
  }

  ghost predicate Attained(pl: Plan, header: Block, latch: Block, m: nat) {
    RankOr0(pl.rank, header) <= m
    && (m != RankOr0(pl.rank, header) ==> exists b :: b in pl.rank && pl.rank[b] == m && InLoop(pl.f, header, latch, b))
  }

  /** The last rank of the loop closed by one back edge. */
  ghost predicate IsLast(pl: Plan, header: Block, latch: Block, m: nat) {
    Attained(pl, header, latch, m) && forall b :: b in pl.rank && InLoop(pl.f, header, latch, b) ==> pl.rank[b] <= m
  }

  /** Everything on a path clear of the header has been visited. */
  lemma {:induction false} AllVisited(pl: Plan, header: Block, latch: Block, m: nat, visited: set<Block>,
                                      path: seq<Block>)
    requires path != [] && Searching(pl, header, latch, m, visited, []) && LoopPath(pl.f, header, latch, path[0], path)
    ensures path[0] in visited && path[0] != header
    decreases |path|
  {
    hide Successors, InLoop, Attained, Preds;
    assert path[0] in path;
    if |path| > 1 {
      PathPart(pl.f, path, 1, |path|);
      assert path[1..|path|] == path[1..];
      AllVisited(pl, header, latch, m, visited, path[1..]);
      PredsExact(pl.f, path[1], path[0]);
      assert Handled(pl, header, m, visited, path[1]);
    }
  }

  lemma SearchDone(pl: Plan, header: Block, latch: Block, m: nat, visited: set<Block>)
    requires Searching(pl, header, latch, m, visited, [])
    ensures IsLast(pl, header, latch, m)
  {
    hide LoopPath, Attained, Preds;
    forall b | b in pl.rank && InLoop(pl.f, header, latch, b)
      ensures pl.rank[b] <= m
    {
      var path :| LoopPath(pl.f, header, latch, b, path);
      LoopPathStart(pl.f, header, latch, b, path);
      AllVisited(pl, header, latch, m, visited, path);
      assert Handled(pl, header, m, visited, b);
    }
  }

  lemma LoopPathStart(f: Func, header: Block, latch: Block, b: Block, path: seq<Block>)
    requires LoopPath(f, header, latch, b, path)
    ensures path != [] && path[0] == b
  {
  }

  /** Adds the predecessors of b not visited yet. */
  method PushPreds(f: Func, header: Block, b: Block, visited: set<Block>, stack: seq<Block>)
    returns (visited': set<Block>, stack': seq<Block>)
    requires visited <= Below(|f|) && forall x :: x in stack ==> x in visited
    ensures visited <= visited' <= Below(|f|) && forall x :: x in stack' ==> x in visited'
    ensures forall p :: p in Preds(f, b) && p != header ==> p in visited'
    ensures forall x :: x in visited' ==> x in visited || (x in Preds(f, b) && x != header && x in stack')
    ensures forall x :: x in stack ==> x in stack'
    ensures |Below(|f|) - visited'| <= |Below(|f|) - visited|
    ensures visited' == visited ==> stack' == stack
  {
    hide Preds, Below;
    visited', stack' := visited, stack;
    var preds := Preds(f, b);
    for k := 0 to |preds|
      invariant visited <= visited' <= Below(|f|) && forall x :: x in stack' ==> x in visited'
      invariant forall j :: 0 <= j < k && preds[j] != header ==> preds[j] in visited'
      invariant forall x :: x in visited' ==> x in visited || (x in preds && x != header && x in stack')
      invariant forall x :: x in stack ==> x in stack'
      invariant |Below(|f|) - visited'| <= |Below(|f|) - visited|
      invariant visited' == visited ==> stack' == stack
    {
      var p := preds[k];
      PredsExact(f, b, p);
      assert p in preds;
      if p != header && p !in visited' {
        Shrinks(|f|, visited', p);
        visited' := visited' + {p};
        stack' := stack' + [p];
      }
    }
  }

  lemma Pushed(pl: Plan, header: Block, latch: Block, m: nat, m': nat, b: Block, visited: set<Block>,
               visited': set<Block>, rest: seq<Block>, stack': seq<Block>)
    requires Searching(pl, header, latch, m, visited, rest + [b]) && b != header
    requires m' == if RankOr0(pl.rank, b) > m then RankOr0(pl.rank, b) else m
    requires visited <= visited' <= Below(|pl.f|) && forall x :: x in stack' ==> x in visited'
    requires forall p :: p in Preds(pl.f, b) && p != header ==> p in visited'
    requires forall x :: x in visited' ==> x in visited || (x in Preds(pl.f, b) && x != header && x in stack')
    requires forall x :: x in rest ==> x in stack'
    ensures Searching(pl, header, latch, m', visited', stack')
  {
    hide InLoop, Preds, Successors, Below, RankOr0;
    forall x | x in visited'
      ensures if x == header then latch == header else InLoop(pl.f, header, latch, x)
    {
      if x !in visited {
        PredsExact(pl.f, b, x);
        assert b in rest + [b];
        InLoopStep(pl.f, header, latch, x, b);
      }
    }
    forall x | x in visited' && x !in stack' && x != header
      ensures Handled(pl, header, m', visited', x)
    {
      if x != b {
        assert x !in rest + [b];
      }
    }
    assert Attained(pl, header, latch, m') by { Raised(pl, header, latch, m, b); }
  }

  lemma Raised(pl: Plan, header: Block, latch: Block, m: nat, b: Block)
    requires Attained(pl, header, latch, m) && InLoop(pl.f, header, latch, b)
    ensures Attained(pl, header, latch, if RankOr0(pl.rank, b) > m then RankOr0(pl.rank, b) else m)
  {
    hide InLoop;
  }

  /** The backward search from the source of one back edge. */
  method LoopEnd(pl: Plan, header: Block, latch: Block) returns (m: nat)
    requires pl.Valid() && header in pl.rank && latch < |pl.f|
    ensures IsLast(pl, header, latch, m)
  {
    hide Closed, Ranks, Preds, Below, Searching;
    m := pl.rank[header];
    var visited, stack := {latch}, [latch];
    SearchStart(pl, header, latch);
    while stack != []
      invariant Searching(pl, header, latch, m, visited, stack) && visited <= Below(|pl.f|)
      decreases |Below(|pl.f|) - visited|, |stack|
    {
      var b, rest := stack[|stack| - 1], stack[..|stack| - 1];
      assert stack == rest + [b];
      if b == header {
        Skipped(pl, header, latch, m, visited, rest);
        stack := rest;
      } else {
        ghost var before, was := m, visited;
        if RankOr0(pl.rank, b) > m {
          m := RankOr0(pl.rank, b);
        }
        PopParts(pl, header, latch, before, visited, rest, b);
        visited, stack := PushPreds(pl.f, header, b, visited, rest);
        Pushed(pl, header, latch, before, m, b, was, visited, rest, stack);
        if visited != was {
          Fewer(|pl.f|, was, visited);
        }
      }
    }
    SearchDone(pl, header, latch, m, visited);
  }

  lemma Fewer(n: nat, was: set<Block>, now: set<Block>)
    requires was < now <= Below(n)
    ensures |Below(n) - now| < |Below(n) - was|
  {
    hide Below;
    var x :| x in now && x !in was;
    Shrinks(n, was, x);
    Subset(Below(n) - now, Below(n) - (was + {x}));
  }

  lemma {:induction false} Subset(a: set<Block>, b: set<Block>)
    requires a <= b
    ensures |a| <= |b|
  {
    if x :| x in a {
      Subset(a - {x}, b - {x});
    }
  }

  lemma SearchStart(pl: Plan, header: Block, latch: Block)
    requires header in pl.rank && latch < |pl.f|
    ensures Searching(pl, header, latch, pl.rank[header], {latch}, [latch])
  {
    if latch != header {
      assert LoopPath(pl.f, header, latch, latch, [latch]);
    }
  }

  lemma PopParts(pl: Plan, header: Block, latch: Block, m: nat, visited: set<Block>, rest: seq<Block>, b: Block)
    requires Searching(pl, header, latch, m, visited, rest + [b])
    ensures visited <= Below(|pl.f|) && forall x :: x in rest ==> x in visited
  {
    hide Handled, InLoop, Attained;
    forall x | x in rest
      ensures x in visited
    {
      assert x in rest + [b];
    }
  }

  lemma Skipped(pl: Plan, header: Block, latch: Block, m: nat, visited: set<Block>, rest: seq<Block>)
    requires Searching(pl, header, latch, m, visited, rest + [header])
    ensures Searching(pl, header, latch, m, visited, rest) && visited <= Below(|pl.f|)
  {
    hide Handled, InLoop, Attained;
    forall b | b in visited && b !in rest && b != header
      ensures Handled(pl, header, m, visited, b)
    {
      assert b !in rest + [header];
    }
    forall b | b in rest
      ensures b in visited
    {
      assert b in rest + [header];
    }
  }

  // ---- the span of every loop ----

  /** An edge from p to a block h that dominates it. */
  ghost predicate BackEdge(pl: Plan, idom: map<Block, Block>, p: Block, h: Block)
    requires pl.Valid() && Tree(pl.order, pl.rank, idom)
  {
    p < |pl.f| && p in pl.rank && h in Successors(pl.f[p]) && Dominates(pl.order, pl.rank, idom, h, p)
  }

  /** Block b belongs to the natural loop of h, apart from h itself. */
  ghost predicate InBody(pl: Plan, idom: map<Block, Block>, h: Block, b: Block)
    requires pl.Valid() && Tree(pl.order, pl.rank, idom)
  {
    b in pl.rank && exists p :: BackEdge(pl, idom, p, h) && InLoop(pl.f, h, p, b)
  }

  /** The ranks from h to m span its loop, and end at one of its blocks. */
  ghost predicate IsSpan(pl: Plan, idom: map<Block, Block>, h: Block, m: nat)
    requires pl.Valid() && Tree(pl.order, pl.rank, idom) && h in pl.rank
  {
    && (forall b :: InBody(pl, idom, h, b) ==> pl.rank[b] <= m)
    && Reached(pl, idom, h, m)
  }

  ghost predicate Reached(pl: Plan, idom: map<Block, Block>, h: Block, m: nat)
    requires pl.Valid() && Tree(pl.order, pl.rank, idom) && h in pl.rank
  {
    m == pl.rank[h] || (m > pl.rank[h] && exists b :: InBody(pl, idom, h, b) && pl.rank[b] == m)
  }

  /** Every block that some back edge goes to, with its span. */
  ghost predicate Spans(pl: Plan, idom: map<Block, Block>, loopMax: map<Block, nat>)
    requires pl.Valid() && Tree(pl.order, pl.rank, idom)
  {
    && (forall h :: h in loopMax <==> h in pl.rank && exists p :: BackEdge(pl, idom, p, h))
    && forall h :: h in loopMax ==> IsSpan(pl, idom, h, loopMax[h])
  }

  /** The spans are determined. */
  lemma SpansUnique(pl: Plan, idom: map<Block, Block>, a: map<Block, nat>, b: map<Block, nat>)
    requires pl.Valid() && Tree(pl.order, pl.rank, idom) && Spans(pl, idom, a) && Spans(pl, idom, b)
    ensures a == b
  {
    hide BackEdge, InBody, Tree, Closed, Ranks;
    forall h | h in a
      ensures h in b && a[h] == b[h]
    {
      assert h in b;
    }
    forall h | h in b
      ensures h in a
    {
    }
  }

  /** What is known of the span of h after the predecessors on a list. */
  ghost predicate SpanSoFar(pl: Plan, idom: map<Block, Block>, h: Block, preds: seq<Block>, m: Option<nat>)
    requires pl.Valid() && Tree(pl.order, pl.rank, idom) && h in pl.rank
  {
    && (m.None? <==> forall p :: p in preds ==> !BackEdge(pl, idom, p, h))
    && (m.Some? ==> Reached(pl, idom, h, m.value))
    && (m.Some? ==> forall p :: p in preds && BackEdge(pl, idom, p, h) ==> Covers(pl, h, p, m.value))
  }

  ghost predicate Covers(pl: Plan, h: Block, p: Block, m: nat) {
    forall b :: b in pl.rank && InLoop(pl.f, h, p, b) ==> pl.rank[b] <= m
  }

  lemma SpanMore(pl: Plan, idom: map<Block, Block>, h: Block, preds: seq<Block>, p: Block, m: Option<nat>, last: nat)
    requires pl.Valid() && Tree(pl.order, pl.rank, idom) && h in pl.rank && SpanSoFar(pl, idom, h, preds, m)
    requires BackEdge(pl, idom, p, h) && IsLast(pl, h, p, last)
    ensures SpanSoFar(pl, idom, h, preds + [p], Some(if m.Some? && m.value > last then m.value else last))
  {
    hide BackEdge, InLoop, Tree, Closed, Ranks;
    var now := if m.Some? && m.value > last then m.value else last;
    if last != pl.rank[h] {
      var b :| b in pl.rank && pl.rank[b] == last && InLoop(pl.f, h, p, b);
      assert InBody(pl, idom, h, b);
    }
    assert p in preds + [p];
    forall q | q in preds + [p] && BackEdge(pl, idom, q, h)
      ensures Covers(pl, h, q, now)
    {
      if q in preds { assert Covers(pl, h, q, m.value); }
    }
  }

  lemma SpanSame(pl: Plan, idom: map<Block, Block>, h: Block, preds: seq<Block>, p: Block, m: Option<nat>)
    requires pl.Valid() && Tree(pl.order, pl.rank, idom) && h in pl.rank && SpanSoFar(pl, idom, h, preds, m)
    requires !BackEdge(pl, idom, p, h)
    ensures SpanSoFar(pl, idom, h, preds + [p], m)
  {
    hide BackEdge, Tree, Closed, Ranks, Covers, Reached;
  }

  /** Extends the span of h over each back edge to it. */
  method HeaderSpan(pl: Plan, idom: map<Block, Block>, h: Block) returns (m: Option<nat>)
    requires pl.Valid() && Tree(pl.order, pl.rank, idom) && h in pl.rank
    ensures m.None? <==> forall p :: !BackEdge(pl, idom, p, h)
    ensures m.Some? ==> IsSpan(pl, idom, h, m.value)
  {
    hide Tree, Closed, Ranks, Preds, SpanSoFar, IsSpan;
    m := None;
    var preds := Preds(pl.f, h);
    assert SpanSoFar(pl, idom, h, [], None) by { SpanNone(pl, idom, h); }
    for k := 0 to |preds|
      invariant SpanSoFar(pl, idom, h, preds[..k], m)
    {
      var p := preds[k];
      PredsExact(pl.f, h, p);
      assert p in preds && preds[..k + 1] == preds[..k] + [p];
      if p in pl.rank && Dominates(pl.order, pl.rank, idom, h, p) && pl.rank[p] >= pl.rank[h] {
        var last := LoopEnd(pl, h, p);
        SpanMore(pl, idom, h, preds[..k], p, m, last);
        m := Some(if m.Some? && m.value > last then m.value else last);
      } else {
        NotBack(pl, idom, h, p);
        SpanSame(pl, idom, h, preds[..k], p, m);
      }
    }
    assert preds[..|preds|] == preds;
    SpanAll(pl, idom, h, m);
  }

  lemma SpanNone(pl: Plan, idom: map<Block, Block>, h: Block)
    requires pl.Valid() && Tree(pl.order, pl.rank, idom) && h in pl.rank
    ensures SpanSoFar(pl, idom, h, [], None)
  {
  }

  lemma NotBack(pl: Plan, idom: map<Block, Block>, h: Block, p: Block)
    requires pl.Valid() && Tree(pl.order, pl.rank, idom) && h in pl.rank
    requires p !in pl.rank || !Dominates(pl.order, pl.rank, idom, h, p) || pl.rank[p] < pl.rank[h]
    ensures !BackEdge(pl, idom, p, h)
  {
  }

  lemma SpanAll(pl: Plan, idom: map<Block, Block>, h: Block, m: Option<nat>)
    requires pl.Valid() && Tree(pl.order, pl.rank, idom) && h in pl.rank && SpanSoFar(pl, idom, h, Preds(pl.f, h), m)
    ensures m.None? <==> forall p :: !BackEdge(pl, idom, p, h)
    ensures m.Some? ==> IsSpan(pl, idom, h, m.value)
  {
    hide Tree, Closed, Ranks, Preds, Dominates, InLoop, Reached;
    forall p | BackEdge(pl, idom, p, h)
      ensures p in Preds(pl.f, h)
    {
      PredsExact(pl.f, h, p);
    }
    if m.Some? {
      forall b | InBody(pl, idom, h, b)
        ensures pl.rank[b] <= m.value
      {
        var p :| BackEdge(pl, idom, p, h) && InLoop(pl.f, h, p, b);
        assert Covers(pl, h, p, m.value);
      }
    }
  }

  /** The spans of all loops, the headers in the order they were found. */
  method Regions(pl: Plan, idom: map<Block, Block>) returns (loopMax: map<Block, nat>, headers: seq<Block>)
    requires pl.Valid() && Tree(pl.order, pl.rank, idom)
    ensures Spans(pl, idom, loopMax)
    ensures forall h :: h in headers <==> h in loopMax
  {
    hide Tree, Closed, Ranks, BackEdge, IsSpan;
    loopMax, headers := map[], [];
    RankOf(pl);
    for r := 0 to |pl.order|
      invariant forall h :: h in headers <==> h in loopMax
      invariant forall h :: h in loopMax <==> h in pl.rank && pl.rank[h] < r && exists p :: BackEdge(pl, idom, p, h)
      invariant forall h :: h in loopMax ==> IsSpan(pl, idom, h, loopMax[h])
    {
      var h := pl.order[r];
      var m := HeaderSpan(pl, idom, h);
      if m.Some? {
        loopMax := loopMax[h := m.value];
        headers := headers + [h];
      }
    }
  }
}
