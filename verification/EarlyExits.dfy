/** A function on which the conversion fails: a branch past a loop and one out of it lead to the same block. */
module EarlyExits {
  import opened Cfg
  import opened Terminators
  import opened Layout
  import opened Emission
  import opened Landings
  import opened Dominators
  import opened TrapHoist
  import TrapEnds
  import opened Loops
  import opened LoopNesting
  import opened SearchOrder
  import opened Stackify

  /** A branch past a loop, and one out of the loop to the same block. */
  function EarlyExit(): Func {
    [Branch(3, [], 1, []), Branch(3, [], 2, []), Goto(1, []), Terminator.Return]
  }

  function EarlyExitOrder(): seq<Block> {
    [0, 1, 3, 2]
  }

  lemma EarlyExitValid()
    ensures ValidTargets(EarlyExit())
  {
    EarlyExitEdges();
  }

  /** What the search looks at next. */
  lemma EarlyExitNext()
    ensures var f := EarlyExit();
            && |f| == 4 && |Successors(f[0])| == 2 && |Successors(f[1])| == 2 && |Successors(f[2])| == 1
            && |Successors(f[3])| == 0 && NextOf(f, Entry(0, 0)) == 1 && NextOf(f, Entry(0, 1)) == 3
            && NextOf(f, Entry(1, 0)) == 2 && NextOf(f, Entry(1, 1)) == 3 && NextOf(f, Entry(2, 0)) == 1
  {
    EarlyExitEdges();
  }

  lemma EarlyExitStart()
    ensures var f := EarlyExit(); f != [] && ValidTargets(f) && Fits(f, FromEntry())
    ensures FromEntry() == Search({0}, [] + [Entry(0, 0)], [])
  {
    EarlyExitEdges();
    EarlyExitValid();
    StartFits(EarlyExit());
  }

  /** Down the loop and back to its header. */
  lemma EarlyExitDown()
    ensures var f := EarlyExit(); f != [] && ValidTargets(f) && Fits(f, FromEntry())
    ensures var f, s := EarlyExit(), Search({0, 1, 2}, [Entry(0, 1)] + [Entry(1, 1)], [2]);
            Fits(f, s) && Searched(f, FromEntry()) == Searched(f, s)
  {
    hide *;
    var f := EarlyExit();
    EarlyExitNext();
    EarlyExitStart();
    SearchedPush(f, {0}, [], Entry(0, 0), [], 1);
    assert {0} + {1} == {0, 1} && [] + [Entry(0, 1)] == [Entry(0, 1)];
    SearchedPush(f, {0, 1}, [Entry(0, 1)], Entry(1, 0), [], 2);
    assert {0, 1} + {2} == {0, 1, 2};
    SearchedSkip(f, {0, 1, 2}, [Entry(0, 1)] + [Entry(1, 1)], Entry(2, 0), []);
    SearchedPop(f, {0, 1, 2}, [Entry(0, 1)] + [Entry(1, 1)], Entry(2, 1), []);
    assert [] + [2] == [2];
  }

  /** Then its exit, and out. */
  lemma EarlyExitOut()
    requires var f, s := EarlyExit(), Search({0, 1, 2}, [Entry(0, 1)] + [Entry(1, 1)], [2]);
             ValidTargets(f) && Fits(f, s)
    ensures Searched(EarlyExit(), Search({0, 1, 2}, [Entry(0, 1)] + [Entry(1, 1)], [2])).post == [2, 3, 1, 0]
  {
    hide *;
    var f := EarlyExit();
    EarlyExitNext();
    SearchedPush(f, {0, 1, 2}, [Entry(0, 1)], Entry(1, 1), [2], 3);
    assert {0, 1, 2} + {3} == {0, 1, 2, 3};
    SearchedPop(f, {0, 1, 2, 3}, [Entry(0, 1)] + [Entry(1, 2)], Entry(3, 0), [2]);
    assert [2] + [3] == [2, 3];
    SearchedPop(f, {0, 1, 2, 3}, [Entry(0, 1)], Entry(1, 2), [2, 3]);
    assert [] + [Entry(0, 1)] == [Entry(0, 1)] && [2, 3] + [1] == [2, 3, 1];
    SearchedSkip(f, {0, 1, 2, 3}, [], Entry(0, 1), [2, 3, 1]);
    SearchedPop(f, {0, 1, 2, 3}, [], Entry(0, 2), [2, 3, 1]);
    SearchedStep(f, Search({0, 1, 2, 3}, [], [2, 3, 1] + [0]));
  }

  /** The order is the one the search gives. */
  lemma EarlyExitSearched()
    ensures ValidTargets(EarlyExit()) && BodyFirst(EarlyExit()) == EarlyExitOrder()
  {
    hide Searched, Turned, EarlyExit, Fits, ValidTargets;
    EarlyExitDown();
    EarlyExitOut();
    assert Reversed([2, 3, 1, 0]) == [0, 1, 3, 2];
  }

  function EarlyExitDominators(): map<Block, Block> {
    map[1 := 0, 2 := 1, 3 := 0]
  }

  lemma EarlyExitEdges()
    ensures var f := EarlyExit();
            && |f| == 4 && Successors(f[0]) == [3, 1] && Successors(f[1]) == [3, 2]
            && Successors(f[2]) == [1] && Successors(f[3]) == []
  {
  }

  lemma EarlyExitPaths(path: seq<Block>)
    requires IsPath(EarlyExit(), path) && path[0] == 0
    ensures path[|path| - 1] == 2 ==> 1 in path
  {
    EarlyExitEdges();
    hide EarlyExit, Successors;
    if path[|path| - 1] == 2 {
      var p := path[|path| - 2];
      assert path[|path| - 2 + 1] in Successors(EarlyExit()[p]);
    }
  }

  lemma EarlyExitImmediate()
    ensures Immediate(EarlyExit(), EarlyExitOrder(), EarlyExitDominators())
  {
    var f := EarlyExit();
    EarlyExitEdges();
    hide EarlyExit, Successors;
    assert PathFrom(f, 0, 1, [0, 1]) && PathFrom(f, 0, 3, [0, 3]) && PathFrom(f, 0, 2, [0, 1, 2]);
    forall b: Block ensures Dom(f, 0, 0, b) {
      forall path | PathFrom(f, 0, b, path) ensures 0 in path {}
    }
    SelfDom(f, 0, 1);
    assert Dom(f, 0, 1, 2) by {
      forall path | PathFrom(f, 0, 2, path) ensures 1 in path { EarlyExitPaths(path); }
    }
    assert IsImmediate(f, 0, 0, 1) && IsImmediate(f, 0, 0, 3) && IsImmediate(f, 0, 1, 2);
  }

  /** The conversion takes it. */
  lemma EarlyExitReady()
    ensures var f, order := EarlyExit(), EarlyExitOrder();
            && ValidTargets(f) && Closed(f, order) && Distinct(order) && Entered(f, order) && Within(f, order)
            && Immediate(f, order, EarlyExitDominators()) && TrapEnds.Ends(f, TrapHoist.State(order, 0))
            && TrapEnds.Plain(f, order)
  {
    EarlyExitEdges();
    EarlyExitSearched();
    EarlyExitImmediate();
    hide Immediate, Successors, Closed, Distinct, Entered, ValidTargets, PredCount, BodyFirst, TrapEnds.Ends;
    var f, order := EarlyExit(), EarlyExitOrder();
    TrapEnds.SeparateEnds(f, TrapHoist.State(order, 0));
  }

  /** A block between a header and the source of a back edge to it, reached around the header. */
  lemma ReachedAround(pl: Plan, idom: map<Block, Block>, at: Placement, h: Block, latch: Block, b: Block,
                      path: seq<Block>)
    requires Placed(pl, idom, at) && h in pl.rank && b in pl.rank && latch in pl.rank && latch != h
    requires latch < |pl.f| && h in Successors(pl.f[latch]) && Dominates(pl.order, pl.rank, idom, h, latch)
    requires pl.rank[h] <= pl.rank[b] <= pl.rank[latch] && PathFrom(pl.f, pl.order[0], b, path) && h !in path
    ensures !DominatedLoops(pl, idom, at.loopMax)
  {
    hide Ordered, OpensAtDominator, Settled, Tree, Closed, Ranks, Dominates, Spans, BackwardDominated, Successors;
    OrderedParts(pl, idom);
    assert BackEdge(pl, idom, latch, h);
    assert LoopPath(pl.f, h, latch, latch, [latch]);
    SpanCovers(pl, idom, at.loopMax, h, latch, latch);
    OrderedChain(pl, idom, h, b);
    assert h in at.loopMax && !SpanDominated(pl, idom, h, at.loopMax[h]);
  }

  lemma EarlyExitRanks()
    ensures var rank := Positions(EarlyExitOrder());
            && rank.Keys == {0, 1, 2, 3} && rank[1] == 1 && rank[3] == 2 && rank[2] == 3
  {
    var order := EarlyExitOrder();
    var rank := Positions(order);
    assert order[0] == 0 && order[1] == 1 && order[2] == 3 && order[3] == 2;
    hide Positions;
    assert forall b :: b in rank <==> b == 0 || b == 1 || b == 2 || b == 3;
  }

  /** The exit of the loop comes before the end of its body, and the header does not dominate it. */
  lemma EarlyExitFails(at: Placement)
    requires Placed(PlanOf(EarlyExit(), EarlyExitOrder(), Positions(EarlyExitOrder())), EarlyExitDominators(), at)
    ensures !DominatedLoops(PlanOf(EarlyExit(), EarlyExitOrder(), Positions(EarlyExitOrder())), EarlyExitDominators(),
                            at.loopMax)
  {
    hide Ordered, OpensAtDominator, Settled, Tree, Closed, Ranks, Spans, DominatedLoops, Positions, Dominates;
    var f, order, idom := EarlyExit(), EarlyExitOrder(), EarlyExitDominators();
    var pl := PlanOf(f, order, Positions(order));
    EarlyExitEdges();
    EarlyExitRanks();
    OrderedParts(pl, idom);
    ParentDominates(order, pl.rank, idom, 2);
    hide EarlyExit, Successors, Placed;
    assert PathFrom(f, 0, 3, [0, 3]);
    ReachedAround(pl, idom, at, 1, 2, 3, [0, 3]);
  }

  /** So the whole conversion of this function, whose contract needs that condition, fails. */
  lemma EarlyExitRejected(order: seq<Block>, at: Placement)
    requires ValidTargets(EarlyExit()) && TrapEnds.HoistsTo(EarlyExit(), BodyFirst(EarlyExit()), order)
    requires Placed(PlanOf(EarlyExit(), order, Positions(order)), EarlyExitDominators(), at)
    ensures !DominatedLoops(PlanOf(EarlyExit(), order, Positions(order)), EarlyExitDominators(), at.loopMax)
  {
    hide TrapEnds.HoistsTo, Placed, DominatedLoops, BodyFirst, TrapEnds.Plain, EarlyExit, ValidTargets;
    EarlyExitReady();
    EarlyExitSearched();
    TrapEnds.PlainStays(EarlyExit(), BodyFirst(EarlyExit()), order);
    EarlyExitFails(at);
  }
}
