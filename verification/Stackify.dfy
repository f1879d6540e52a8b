/** The whole conversion: landings opened at dominators, moved out until nothing
    crosses, then written out. */
module Stackify {
  import opened Cfg
  import opened StructuredCode
  import opened Terminators
  import opened Layout
  import opened Simulation
  import opened Emission
  import opened Landings
  import opened TrapHoist
  import opened Dominators
  import opened Loops
  import opened LoopNesting
  import opened LoopEntries

  // ---- moving one opening out ----

  /** Opening at s crosses no scope that ends earlier than t, and is not strictly
      inside a loop that t's scope would leave. */
  ghost predicate Admissible(rank: map<Block, nat>, loopMax: map<Block, nat>, starts: map<Block, nat>, t: Block, s: nat)
    requires t in rank && (forall u :: u in starts ==> u in rank) && forall h :: h in loopMax ==> h in rank
  {
    && (forall u :: u in starts && rank[u] < rank[t] ==> !(starts[u] < s < rank[u]))
    && (forall h :: h in loopMax ==> !(rank[h] < s <= loopMax[h] < rank[t]))
  }

  /** The largest admissible opening at or before `init`. */
  ghost predicate Largest(rank: map<Block, nat>, loopMax: map<Block, nat>, starts: map<Block, nat>, t: Block,
                          init: nat, s: nat)
    requires t in rank && (forall u :: u in starts ==> u in rank) && forall h :: h in loopMax ==> h in rank
  {
    && s <= init && Admissible(rank, loopMax, starts, t, s)
    && forall x: nat :: x <= init && Admissible(rank, loopMax, starts, t, x) ==> x <= s
  }

  /** One pass over the scopes that end earlier. */
  method PassLandings(rank: map<Block, nat>, loopMax: map<Block, nat>, starts: map<Block, nat>, earlier: seq<Block>,
                      t: Block, start: nat)
    returns (s: nat)
    requires t in rank && (forall u :: u in starts ==> u in rank) && forall h :: h in loopMax ==> h in rank
    requires forall u :: u in earlier <==> u in starts && rank[u] < rank[t]
    ensures s <= start
    ensures forall x: nat :: x <= start && Admissible(rank, loopMax, starts, t, x) ==> x <= s
    ensures s == start ==> forall u :: u in starts && rank[u] < rank[t] ==> !(starts[u] < s < rank[u])
  {
    s := start;
    for k := 0 to |earlier|
      invariant s <= start
      invariant forall x: nat :: x <= start && Admissible(rank, loopMax, starts, t, x) ==> x <= s
      invariant s == start ==> forall j :: 0 <= j < k ==> !(starts[earlier[j]] < s < rank[earlier[j]])
    {
      var u := earlier[k];
      assert u in earlier;
      if starts[u] < s && s < rank[u] {
        s := starts[u];
      }
    }
  }

  /** One pass over the loops, in any order. */
  method PassLoops(rank: map<Block, nat>, loopMax: map<Block, nat>, starts: map<Block, nat>, headers: seq<Block>,
                   t: Block, start: nat)
    returns (s: nat)
    requires t in rank && (forall u :: u in starts ==> u in rank) && forall h :: h in loopMax ==> h in rank
    requires forall h :: h in headers <==> h in loopMax
    ensures s <= start
    ensures forall x: nat :: x <= start && Admissible(rank, loopMax, starts, t, x) ==> x <= s
    ensures s == start ==> forall h :: h in loopMax ==> !(rank[h] < s <= loopMax[h] < rank[t])
  {
    s := start;
    for k := 0 to |headers|
      invariant s <= start
      invariant forall x: nat :: x <= start && Admissible(rank, loopMax, starts, t, x) ==> x <= s
      invariant s == start ==> forall j :: 0 <= j < k ==>
                  !(rank[headers[j]] < s <= loopMax[headers[j]] < rank[t])
    {
      var h := headers[k];
      assert h in headers;
      if rank[h] <= s && s <= loopMax[h] && loopMax[h] < rank[t] {
        s := rank[h];
      }
    }
  }

  /** Repeats both passes until neither moves the opening. */
  method MoveOut(rank: map<Block, nat>, loopMax: map<Block, nat>, starts: map<Block, nat>, earlier: seq<Block>,
                 headers: seq<Block>, t: Block, init: nat)
    returns (s: nat)
    requires t in rank && (forall u :: u in starts ==> u in rank) && forall h :: h in loopMax ==> h in rank
    requires forall u :: u in earlier <==> u in starts && rank[u] < rank[t]
    requires forall h :: h in headers <==> h in loopMax
    ensures Largest(rank, loopMax, starts, t, init, s)
  {
    s := init;
    while true
      invariant s <= init
      invariant forall x: nat :: x <= init && Admissible(rank, loopMax, starts, t, x) ==> x <= s
      decreases s
    {
      var previous := s;
      s := PassLandings(rank, loopMax, starts, earlier, t, s);
      s := PassLoops(rank, loopMax, starts, headers, t, s);
      if s == previous {
        break;
      }
    }
  }

  // ---- moving all openings out ----

  /** Each landing opens at its largest admissible rank. */
  ghost predicate Settled(rank: map<Block, nat>, loopMax: map<Block, nat>, openings: map<Block, nat>,
                          starts: map<Block, nat>)
    requires (forall u :: u in openings ==> u in rank) && forall h :: h in loopMax ==> h in rank
  {
    && starts.Keys == openings.Keys
    && forall t :: t in starts ==> Largest(rank, loopMax, starts, t, openings[t], starts[t])
  }

  /** Which openings result does not depend on the order loops are looked at. */
  lemma {:induction false} SettledUnique(rank: map<Block, nat>, loopMax: map<Block, nat>, openings: map<Block, nat>,
                                         a: map<Block, nat>, b: map<Block, nat>, r: nat, t: Block)
    requires (forall u :: u in openings ==> u in rank) && forall h :: h in loopMax ==> h in rank
    requires Settled(rank, loopMax, openings, a) && Settled(rank, loopMax, openings, b)
    requires t in openings && rank[t] < r
    ensures a[t] == b[t]
    decreases r
  {
    forall u | u in openings && rank[u] < rank[t] ensures a[u] == b[u] {
      SettledUnique(rank, loopMax, openings, a, b, rank[t], u);
    }
    assert Largest(rank, loopMax, a, t, openings[t], a[t]);
    assert Largest(rank, loopMax, b, t, openings[t], b[t]);
    assert Admissible(rank, loopMax, b, t, a[t]);
    assert Admissible(rank, loopMax, a, t, b[t]);
  }

  /** Scopes that end earlier are settled first. */
  method Settle(order: seq<Block>, rank: map<Block, nat>, loopMax: map<Block, nat>, headers: seq<Block>,
                openings: map<Block, nat>)
    returns (starts: map<Block, nat>)
    requires Ranks(order, rank)
    requires (forall u :: u in openings ==> u in rank) && forall h :: h in loopMax ==> h in rank
    requires forall h :: h in headers <==> h in loopMax
    ensures Settled(rank, loopMax, openings, starts)
  {
    hide Largest;
    starts := map[];
    var earlier: seq<Block> := [];
    for r := 0 to |order|
      invariant forall t :: t in starts <==> t in openings && rank[t] < r
      invariant forall t :: t in earlier <==> t in starts
      invariant forall t :: t in starts ==> Largest(rank, loopMax, starts, t, openings[t], starts[t])
    {
      var t := order[r];
      if t in openings {
        var s := MoveOut(rank, loopMax, starts, earlier, headers, t, openings[t]);
        ghost var before := starts;
        starts := starts[t := s];
        earlier := earlier + [t];
        forall u | u in starts ensures Largest(rank, loopMax, starts, u, openings[u], starts[u]) {
          LaterDoesNotMatter(rank, loopMax, before, t, s, u, openings[u], starts[u]);
        }
      }
    }
  }

  /** A scope that ends no earlier has no say in where u opens. */
  lemma LaterDoesNotMatter(rank: map<Block, nat>, loopMax: map<Block, nat>, starts: map<Block, nat>, t: Block, s: nat,
                           u: Block, init: nat, x: nat)
    requires (forall v :: v in starts ==> v in rank) && forall h :: h in loopMax ==> h in rank
    requires t in rank && u in rank
    requires t !in starts && rank[t] >= rank[u] && Largest(rank, loopMax, starts, u, init, x)
    ensures Largest(rank, loopMax, starts[t := s], u, init, x)
  {
    var moved := starts[t := s];
    SameAdmissible(rank, loopMax, starts, t, s, u, x);
    forall y: nat | y <= init && Admissible(rank, loopMax, moved, u, y) ensures y <= x {
      SameAdmissible(rank, loopMax, starts, t, s, u, y);
    }
  }

  lemma SameAdmissible(rank: map<Block, nat>, loopMax: map<Block, nat>, starts: map<Block, nat>, t: Block, s: nat,
                       u: Block, y: nat)
    requires (forall v :: v in starts ==> v in rank) && forall h :: h in loopMax ==> h in rank
    requires t in rank && u in rank
    requires t !in starts && rank[t] >= rank[u]
    ensures Admissible(rank, loopMax, starts[t := s], u, y) <==> Admissible(rank, loopMax, starts, u, y)
  {
    forall v | v in starts ensures v in starts[t := s] && starts[t := s][v] == starts[v] {}
  }

  /** Settled landings are pairwise nested or disjoint, and none opens strictly inside
      a loop and ends past it. */
  lemma SettledNests(rank: map<Block, nat>, loopMax: map<Block, nat>, openings: map<Block, nat>,
                     starts: map<Block, nat>)
    requires (forall u :: u in openings ==> u in rank) && forall h :: h in loopMax ==> h in rank
    requires Settled(rank, loopMax, openings, starts)
    ensures forall t, u :: t in starts && u in starts ==> !(starts[t] < starts[u] < rank[t] < rank[u])
    ensures forall h, t :: h in loopMax && t in starts ==> !(rank[h] < starts[t] <= loopMax[h] < rank[t])
  {
    forall t, u | t in starts && u in starts ensures !(starts[t] < starts[u] < rank[t] < rank[u]) {
      assert Largest(rank, loopMax, starts, u, openings[u], starts[u]);
    }
    forall h, t | h in loopMax && t in starts ensures !(rank[h] < starts[t] <= loopMax[h] < rank[t]) {
      assert Largest(rank, loopMax, starts, t, openings[t], starts[t]);
    }
  }

  // ---- the conversion ----

  /** What the loop regions must satisfy for the conversion to succeed: loops nest, no
      landing opened before a loop ends inside it, and every backward edge goes to the
      header of a loop that contains its source. */
  ghost predicate LoopsFit(pl: Plan, loopMax: map<Block, nat>, starts: map<Block, nat>)
    requires pl.Valid() && (forall h :: h in loopMax ==> h in pl.rank) && forall t :: t in starts ==> t in pl.rank
  {
    && (forall h, t :: h in loopMax && t in starts ==> !(starts[t] < pl.rank[h] < pl.rank[t] <= loopMax[h]))
    && (forall h, g :: h in loopMax && g in loopMax ==> !(pl.rank[h] < pl.rank[g] <= loopMax[h] < loopMax[g]))
    && (forall h :: h in loopMax ==> loopMax[h] < |pl.order|)
    && (forall i, t :: 0 <= i < |pl.order| && EdgeTo(pl, i, t) && pl.rank[t] <= i ==> t in loopMax && loopMax[t] >= i)
  }

  lemma FitsIsLaminar(pl: Plan, idom: map<Block, Block>, openings: map<Block, nat>, sc: Scopes)
    requires pl.Valid() && Tree(pl.order, pl.rank, idom) && OpensAtDominator(pl, idom, openings)
    requires ScopesValid(pl, sc) && Settled(pl.rank, sc.loopMax, openings, sc.starts)
    requires LoopsFit(pl, sc.loopMax, sc.starts)
    ensures Laminar(pl, sc)
  {
    hide Settled, EdgeTo, OpensAtDominator, Tree, Ranks, Closed;
    OpeningsRanked(pl, idom, openings);
    SettledNests(pl.rank, sc.loopMax, openings, sc.starts);
    StartInTime(pl, idom, openings, sc);
  }

  /** Landings are open at the source of every forward edge. */
  lemma StartInTime(pl: Plan, idom: map<Block, Block>, openings: map<Block, nat>, sc: Scopes)
    requires pl.Valid() && Tree(pl.order, pl.rank, idom) && OpensAtDominator(pl, idom, openings)
    requires ScopesValid(pl, sc) && (forall u :: u in openings ==> u in pl.rank)
    requires Settled(pl.rank, sc.loopMax, openings, sc.starts)
    ensures OpenInTime(pl, sc)
  {
    hide Settled, EdgeTo, OpensAtDominator, Tree, Ranks, Closed;
    forall i, t | 0 <= i < |pl.order| && EdgeTo(pl, i, t) && pl.rank[t] > i
      ensures t in sc.starts && sc.starts[t] <= i
    {
      OpensBeforeSources(pl, idom, openings, i, t);
      SettledBelow(pl.rank, sc.loopMax, openings, sc.starts, t);
    }
  }

  /** No settled landing opens inside a loop and ends past it. */
  lemma SettledLeavesNone(pl: Plan, openings: map<Block, nat>, sc: Scopes)
    requires ScopesValid(pl, sc) && (forall u :: u in openings ==> u in pl.rank)
    requires Settled(pl.rank, sc.loopMax, openings, sc.starts)
    ensures NoneLeaves(pl, sc)
  {
    hide Settled;
    SettledNests(pl.rank, sc.loopMax, openings, sc.starts);
  }

  lemma SettledBelow(rank: map<Block, nat>, loopMax: map<Block, nat>, openings: map<Block, nat>,
                     starts: map<Block, nat>, t: Block)
    requires (forall u :: u in openings ==> u in rank) && forall h :: h in loopMax ==> h in rank
    requires Settled(rank, loopMax, openings, starts) && t in openings
    ensures t in starts && starts[t] <= openings[t]
  {
  }

  lemma ScopesReady(pl: Plan, idom: map<Block, Block>, openings: map<Block, nat>, sc: Scopes)
    requires pl.Valid() && Tree(pl.order, pl.rank, idom) && OpensAtDominator(pl, idom, openings)
    requires forall h :: h in sc.loopMax ==> h in pl.rank
    requires Settled(pl.rank, sc.loopMax, openings, sc.starts)
    ensures ScopesValid(pl, sc)
  {
    hide Tree, IsOpening, ForwardPreds, Largest;
    forall t | t in sc.starts ensures t in pl.rank && sc.starts[t] < pl.rank[t] {
      OpensBeforeTarget(pl, idom, openings, t);
      SettledBelow(pl.rank, sc.loopMax, openings, sc.starts, t);
    }
  }

  // ---- loops whose headers dominate their spans ----

  /** A landing of a block inside such a span opens inside it. */
  lemma {:induction false} StartsInside(pl: Plan, idom: map<Block, Block>, loopMax: map<Block, nat>,
                                        openings: map<Block, nat>, starts: map<Block, nat>, h: Block, t: Block)
    requires Ordered(pl, idom) && Spans(pl, idom, loopMax) && Compact(pl, idom, loopMax)
    requires OpensAtDominator(pl, idom, openings) && (forall u :: u in openings ==> u in pl.rank)
    requires (forall g :: g in loopMax ==> g in pl.rank) && Settled(pl.rank, loopMax, openings, starts)
    requires h in loopMax && t in starts && pl.rank[h] < pl.rank[t] <= loopMax[h]
    ensures starts[t] >= pl.rank[h]
    decreases pl.rank[t]
  {
    hide Ordered, Spans, OpensAtDominator, Dominates, Tree, Closed, Ranks;
    OrderedParts(pl, idom);
    assert SpanDominated(pl, idom, h, loopMax[h]);
    OpensInside(pl, idom, openings, h, t);
    assert Largest(pl.rank, loopMax, starts, t, openings[t], starts[t]);
    var x := pl.rank[h];
    forall u | u in starts && pl.rank[u] < pl.rank[t]
      ensures !(starts[u] < x < pl.rank[u])
    {
      if x < pl.rank[u] { StartsInside(pl, idom, loopMax, openings, starts, h, u); }
    }
    forall g | g in loopMax
      ensures !(pl.rank[g] < x <= loopMax[g] < pl.rank[t])
    {
      SpansNest(pl, idom, loopMax, g, h);
    }
    assert Admissible(pl.rank, loopMax, starts, t, x);
  }

  lemma CompactAt(pl: Plan, idom: map<Block, Block>, loopMax: map<Block, nat>, h: Block)
    requires pl.Valid() && Tree(pl.order, pl.rank, idom) && (forall g :: g in loopMax ==> g in pl.rank)
    requires Compact(pl, idom, loopMax) && h in loopMax
    ensures SpanDominated(pl, idom, h, loopMax[h])
  {
  }

  lemma BackwardAt(pl: Plan, idom: map<Block, Block>, i: nat, t: Block)
    requires pl.Valid() && Tree(pl.order, pl.rank, idom) && BackwardDominated(pl, idom)
    requires i < |pl.order| && EdgeTo(pl, i, t) && pl.rank[t] <= i
    ensures Dominates(pl.order, pl.rank, idom, t, pl.order[i])
  {
  }

  /** Loops fit when every backward edge goes to a dominator and headers dominate their spans. */
  lemma DominatedFits(pl: Plan, idom: map<Block, Block>, loopMax: map<Block, nat>, openings: map<Block, nat>,
                      starts: map<Block, nat>)
    requires Ordered(pl, idom) && Spans(pl, idom, loopMax)
    requires OpensAtDominator(pl, idom, openings) && (forall u :: u in openings ==> u in pl.rank)
    requires (forall g :: g in loopMax ==> g in pl.rank) && Settled(pl.rank, loopMax, openings, starts)
    requires DominatedLoops(pl, idom, loopMax)
    ensures (forall t :: t in starts ==> t in pl.rank) && LoopsFit(pl, loopMax, starts)
  {
    hide Ordered, Spans, SpanDominated, OpensAtDominator, Dominates, Tree, Closed, Ranks, EdgeTo, Settled, Compact,
         BackwardDominated;
    OrderedParts(pl, idom);
    SpansRanked(pl, idom, loopMax);
    StartsRanked(pl.rank, loopMax, openings, starts);
    forall h, t | h in loopMax && t in starts
      ensures !(starts[t] < pl.rank[h] < pl.rank[t] <= loopMax[h])
    {
      if pl.rank[h] < pl.rank[t] <= loopMax[h] {
        StartsInside(pl, idom, loopMax, openings, starts, h, t);
      }
    }
    forall h, g | h in loopMax && g in loopMax
      ensures !(pl.rank[h] < pl.rank[g] <= loopMax[h] < loopMax[g])
    {
      CompactAt(pl, idom, loopMax, g);
      SpansNest(pl, idom, loopMax, h, g);
    }
    forall i, t | 0 <= i < |pl.order| && EdgeTo(pl, i, t) && pl.rank[t] <= i
      ensures t in loopMax && loopMax[t] >= i
    {
      BackwardAt(pl, idom, i, t);
      BackEdgeInside(pl, idom, loopMax, i, t);
    }
  }

  // ---- from the order of the blocks ----

  /** The rank of each block. */
  function Positions(order: seq<Block>): (rank: map<Block, nat>)
    ensures forall b :: b in rank <==> b in order
    ensures forall b :: b in rank ==> rank[b] < |order| && order[rank[b]] == b
  {
    if order == [] then map[]
    else
      var k := |order| - 1;
      assert order == order[..k] + [order[k]];
      Positions(order[..k])[order[k] := k]
  }

  lemma PositionsRank(order: seq<Block>)
    requires Distinct(order)
    ensures Ranks(order, Positions(order))
  {
    hide Distinct;
    var rank := Positions(order);
    forall i | 0 <= i < |order|
      ensures order[i] in rank && rank[order[i]] == i
    {
      var k := rank[order[i]];
      if k < i { DistinctIndices(order, k, i); }
      if i < k { DistinctIndices(order, i, k); }
    }
  }

  /** Where scopes open and end: the span of each loop, the nearest common dominator of
      each landing's sources, and where the landing opens in the end. */
  datatype Placement = Placement(loopMax: map<Block, nat>, openings: map<Block, nat>, starts: map<Block, nat>)

  ghost predicate Placed(pl: Plan, idom: map<Block, Block>, at: Placement)
  {
    && Ordered(pl, idom) && Spans(pl, idom, at.loopMax) && OpensAtDominator(pl, idom, at.openings)
    && (forall u :: u in at.openings ==> u in pl.rank) && (forall h :: h in at.loopMax ==> h in pl.rank)
    && Settled(pl.rank, at.loopMax, at.openings, at.starts) && (forall t :: t in at.starts ==> t in pl.rank)
  }

  /** There is only one placement. */
  lemma PlacedUnique(pl: Plan, idom: map<Block, Block>, a: Placement, b: Placement)
    requires Placed(pl, idom, a) && Placed(pl, idom, b)
    ensures a == b
  {
    hide Ordered, Spans, Largest, Tree, Closed, Ranks, ForwardPreds, IsOpening;
    OrderedParts(pl, idom);
    SpansUnique(pl, idom, a.loopMax, b.loopMax);
    OpeningsUnique(pl, idom, a.openings, b.openings);
    forall t | t in a.starts
      ensures a.starts[t] == b.starts[t]
    {
      SettledUnique(pl.rank, a.loopMax, a.openings, a.starts, b.starts, pl.rank[t] + 1, t);
    }
    assert a.starts.Keys == b.starts.Keys;
    assert a.starts == b.starts;
  }

  /** The code is laid out for the plan, with the scopes of the placement and no others. */
  ghost predicate LaidOut(pl: Plan, at: Placement, pcs: seq<nat>, ops: seq<Op>)
    requires pl.Valid()
  {
    Laid(pl, ops, pcs) && Outlined(ops) == Outline(pl, Scopes(at.loopMax, at.starts), |pl.order|)
  }

  /** Converts a function whose blocks are listed in `order`, given their immediate
      dominators. Whenever it succeeds the operations walk the graph. It succeeds exactly
      when every backward edge goes to a dominator and headers dominate their spans. */
  method Convert(f: Func, order: seq<Block>, idom: map<Block, Block>)
    returns (r: Result<seq<Op>>, ghost at: Placement, ghost pcs: seq<nat>)
    requires order != [] && Closed(f, order) && Distinct(order) && Entered(f, order) && Immediate(f, order, idom)
    ensures r.Ok? ==> Walks(f, order, r.value)
    ensures Placed(PlanOf(f, order, Positions(order)), idom, at)
    ensures r.Ok? ==> LaidOut(PlanOf(f, order, Positions(order)), at, pcs, r.value)
    ensures LoopsFit(PlanOf(f, order, Positions(order)), at.loopMax, at.starts) ==> r.Ok?
    ensures r.Ok? <==> DominatedLoops(PlanOf(f, order, Positions(order)), idom, at.loopMax)
  {
    hide Tree, OpensAtDominator, Settled, LoopsFit, Walks, Laminar, Ranks, Closed, Positions, Distinct, Entered,
         Immediate, Spans, DominatedLoops, NoneLeaves, LandingsClear, EdgesCovered, OpenInTime, Laid, Outlined,
         Outline;
    var rank := Positions(order);
    PositionsRank(order);
    var pl := PlanOf(f, order, rank);
    ImmediateTree(f, order, rank, idom);
    var loopMax, headers := Regions(pl, idom);
    SpansRanked(pl, idom, loopMax);
    var openings := Openings(pl, idom);
    OpeningsRanked(pl, idom, openings);
    var starts := Settle(order, rank, loopMax, headers, openings);
    StartsRanked(rank, loopMax, openings, starts);
    at := Placement(loopMax, openings, starts);
    var sc := Scopes(loopMax, starts);
    ScopesReady(pl, idom, openings, sc);
    r, pcs := Emit(f, order, rank, sc);
    if LoopsFit(pl, loopMax, starts) {
      FitsIsLaminar(pl, idom, openings, sc);
    }
    if DominatedLoops(pl, idom, loopMax) {
      DominatedFits(pl, idom, loopMax, openings, starts);
    }
    if r.Ok? {
      SettledLeavesNone(pl, openings, sc);
      StartInTime(pl, idom, openings, sc);
      DominatedNeeded(pl, idom, sc);
    }
  }

  lemma OpeningsRanked(pl: Plan, idom: map<Block, Block>, openings: map<Block, nat>)
    requires pl.Valid() && Tree(pl.order, pl.rank, idom) && OpensAtDominator(pl, idom, openings)
    ensures forall t :: t in openings ==> t in pl.rank
  {
    hide ForwardPreds, IsOpening, Tree;
  }

  lemma StartsRanked(rank: map<Block, nat>, loopMax: map<Block, nat>, openings: map<Block, nat>,
                     starts: map<Block, nat>)
    requires (forall u :: u in openings ==> u in rank) && forall h :: h in loopMax ==> h in rank
    requires Settled(rank, loopMax, openings, starts)
    ensures forall t :: t in starts ==> t in rank
  {
    hide Largest;
  }
}
