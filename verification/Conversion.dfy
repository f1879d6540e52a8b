/** Traps moved, then converted: from the order the search of the graph gives to
    structured operations. */
module Conversion {
  import opened Cfg
  import opened StructuredCode
  import opened Simulation
  import opened Emission
  import opened Dominators
  import opened TrapHoist
  import TrapEnds
  import opened LoopNesting
  import opened SearchOrder
  import opened SearchRoutes
  import opened Stackify

  lemma {:induction false} WalkSame(f: Func, a: seq<Block>, b: seq<Block>, x: Block, args: seq<Operand>,
                                    inputs: seq<int>)
    requires Closed(f, a) && Closed(f, b) && x in a && x in b
    ensures Walk(f, a, x, args, inputs) == Walk(f, b, x, args, inputs)
    decreases |inputs|
  {
    if inputs != [] && !f[x].Return? && !f[x].Unreachable? {
      TakeTarget(f[x], inputs[0]);
      var e := Take(f[x], inputs[0]);
      WalkSame(f, a, b, e.target, e.args, inputs[1..]);
    }
  }

  lemma WalksSame(f: Func, a: seq<Block>, b: seq<Block>, ops: seq<Op>)
    requires a != [] && b != [] && Closed(f, a) && Closed(f, b) && a[0] == b[0] && Walks(f, a, ops)
    ensures Walks(f, b, ops)
  {
    hide Closed, Walk, Steps;
    forall inputs: seq<int>
      ensures WalksOn(f, b, ops, inputs)
    {
      assert WalksOn(f, a, ops, inputs);
      var n: nat :| WalksIn(f, a, ops, inputs, n);
      assert a[0] in a && b[0] in b;
      WalkSame(f, a, b, a[0], [], inputs);
      assert WalksIn(f, b, ops, inputs, n);
    }
  }

  /** Moves the traps, then converts. It succeeds exactly when, in the order the hoist leaves, every
      backward edge goes to a dominator and every header dominates the blocks inside its loop's span. */
  method HoistAndConvert(f: Func, rpo: seq<Block>, idom: map<Block, Block>)
    returns (r: Result<seq<Op>>, ghost order: seq<Block>, ghost at: Placement, ghost pcs: seq<nat>)
    requires ValidTargets(f) && Closed(f, rpo) && Distinct(rpo) && Entered(f, rpo)
    requires rpo != [] ==> Immediate(f, rpo, idom)
    requires Within(f, rpo) && TrapEnds.Ends(f, TrapHoist.State(rpo, 0))
    ensures rpo == [] ==> r == Ok([])
    ensures rpo != [] && r.Ok? ==> Walks(f, rpo, r.value)
    ensures TrapEnds.HoistsTo(f, rpo, order) && multiset(order) == multiset(rpo)
    ensures Within(f, order) && Others(f, order) == Others(f, rpo) && TrapsFirst(f, order, |order|)
    ensures rpo != [] ==> Placed(PlanOf(f, order, Positions(order)), idom, at)
    ensures rpo != [] && r.Ok? ==> LaidOut(PlanOf(f, order, Positions(order)), at, pcs, r.value)
    ensures rpo != [] ==> (r.Ok? <==> DominatedLoops(PlanOf(f, order, Positions(order)), idom, at.loopMax))
  {
    hide Closed, Distinct, Entered, Immediate, Walks, TrapEnds.Ends, Placed, Positions, DominatedLoops, Others,
         ValidTargets, LoopsFit, TrapEnds.HoistsTo, LaidOut, TrapsFirst;
    at, pcs := Placement(map[], map[], map[]), [];
    if rpo == [] {
      var same := TrapEnds.Hoist(f, rpo);
      return Ok([]), same, at, pcs;
    }
    var moved := TrapEnds.Hoist(f, rpo);
    order := moved;
    SameBlocks(f, rpo, moved, idom);
    r, at, pcs := Convert(f, moved, idom);
    if r.Ok? {
      WalksSame(f, moved, rpo, r.value);
    }
  }

  /** What the conversion needs of an order depends on its blocks and on the first of them. */
  lemma SameBlocks(f: Func, a: seq<Block>, b: seq<Block>, idom: map<Block, Block>)
    requires multiset(a) == multiset(b) && a != [] && b != [] && a[0] == b[0]
    requires Closed(f, a) && Distinct(a) && Immediate(f, a, idom)
    ensures Closed(f, b) && Distinct(b) && Immediate(f, b, idom)
  {
    hide Successors, IsImmediate;
    TrapEnds.SameMembers(a, b);
  }

  /** The whole conversion of a function: search, hoist, convert. */
  method StackifyFunction(f: Func, idom: map<Block, Block>)
    returns (r: Result<seq<Op>>, ghost order: seq<Block>, ghost at: Placement, ghost pcs: seq<nat>)
    requires ValidTargets(f) && (f != [] ==> Immediate(f, BodyFirst(f), idom))
    requires TrapEnds.Ends(f, TrapHoist.State(BodyFirst(f), 0))
    ensures f == [] ==> r == Ok([])
    ensures f != [] ==> ByRoutes(f, BodyFirst(f))
    ensures f != [] && r.Ok? ==> Walks(f, BodyFirst(f), r.value)
    ensures TrapEnds.HoistsTo(f, BodyFirst(f), order) && Within(f, order) && TrapsFirst(f, order, |order|)
    ensures f != [] ==> Placed(PlanOf(f, order, Positions(order)), idom, at)
    ensures f != [] && r.Ok? ==> LaidOut(PlanOf(f, order, Positions(order)), at, pcs, r.value)
    ensures f != [] ==> (r.Ok? <==> DominatedLoops(PlanOf(f, order, Positions(order)), idom, at.loopMax))
  {
    hide Closed, Distinct, Entered, Immediate, Walks, TrapEnds.Ends, Placed, Positions, DominatedLoops, Others,
         ValidTargets, LoopsFit, TrapEnds.HoistsTo, Within, BodyFirst, ByRoutes, LaidOut, TrapsFirst;
    var rpo := ReversePostOrder(f);
    r, order, at, pcs := HoistAndConvert(f, rpo, idom);
  }
}
