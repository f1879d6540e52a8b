/** Branch operations for a block's terminator: label depths, fallthrough, and the
    choice between a branch table and a chain of equality branches. */
module Terminators {
  import opened Cfg
  import opened StructuredCode
  import opened Wrappers

  /** The blocks on the list, each with its position. */
  ghost predicate Ranks(order: seq<Block>, rank: map<Block, nat>) {
    && (forall i :: 0 <= i < |order| ==> order[i] in rank && rank[order[i]] == i)
    && (forall b :: b in rank ==> rank[b] < |order| && order[rank[b]] == b)
  }

  /** How many scopes lie above the innermost one named `t`; all of them when there is none. */
  function Depth(names: seq<Block>, t: Block): (d: nat)
    ensures d <= |names|
    ensures t in names ==> d < |names| && names[|names| - 1 - d] == t
  {
    if names == [] || names[|names| - 1] == t then 0 else 1 + Depth(names[..|names| - 1], t)
  }

  predicate Next(rank: map<Block, nat>, source: Block, target: Block)
    requires source in rank && target in rank
  {
    rank[target] == rank[source] + 1
  }

  // ---- switches ----

  function InsertCase(c: Case, sorted: seq<Case>): (r: seq<Case>)
    ensures |r| == |sorted| + 1
  {
    if sorted == [] || c.value <= sorted[0].value then [c] + sorted
    else [sorted[0]] + InsertCase(c, sorted[1..])
  }

  /** The cases by ascending value, equal values in their original order. */
  function SortCases(cases: seq<Case>): (r: seq<Case>)
    ensures |r| == |cases|
  {
    if cases == [] then [] else InsertCase(cases[0], SortCases(cases[1..]))
  }

  ghost predicate Ascending(cases: seq<Case>) {
    forall i, j :: 0 <= i < j < |cases| ==> cases[i].value <= cases[j].value
  }

  lemma {:induction false} InsertKeeps(c: Case, sorted: seq<Case>)
    ensures multiset(InsertCase(c, sorted)) == multiset(sorted) + multiset{c}
  {
    if sorted != [] && c.value > sorted[0].value {
      var rest := InsertCase(c, sorted[1..]);
      InsertKeeps(c, sorted[1..]);
      assert sorted == [sorted[0]] + sorted[1..];
      assert multiset([sorted[0]] + rest) == multiset{sorted[0]} + multiset(rest);
    }
  }

  lemma {:induction false} InsertAscends(c: Case, sorted: seq<Case>)
    requires Ascending(sorted)
    ensures Ascending(InsertCase(c, sorted))
    ensures sorted != [] ==> InsertCase(c, sorted)[0] == c || InsertCase(c, sorted)[0] == sorted[0]
  {
    if sorted != [] && c.value > sorted[0].value {
      InsertAscends(c, sorted[1..]);
      AscendsFrom(sorted[0], InsertCase(c, sorted[1..]));
    } else if sorted != [] {
      AscendsFrom(c, sorted);
    }
  }

  lemma AscendsFrom(c: Case, cases: seq<Case>)
    requires Ascending(cases) && (cases != [] ==> c.value <= cases[0].value)
    ensures Ascending([c] + cases)
  {
  }

  /** Sorting reorders the cases by value. */
  lemma {:induction false} SortKeeps(cases: seq<Case>)
    ensures multiset(SortCases(cases)) == multiset(cases) && Ascending(SortCases(cases))
  {
    if cases != [] {
      SortKeeps(cases[1..]);
      InsertKeeps(cases[0], SortCases(cases[1..]));
      InsertAscends(cases[0], SortCases(cases[1..]));
      assert cases == [cases[0]] + cases[1..];
    }
  }

  lemma SortMembers(cases: seq<Case>, x: Case)
    ensures x in SortCases(cases) <==> x in cases
  {
    SortKeeps(cases);
    assert x in SortCases(cases) <==> x in multiset(SortCases(cases));
    assert x in cases <==> x in multiset(cases);
  }

  predicate Consecutive(sorted: seq<Case>) {
    forall i :: 0 <= i < |sorted| ==> sorted[i].value == i
  }

  predicate NoArgs(cases: seq<Case>) {
    forall i :: 0 <= i < |cases| ==> cases[i].args == []
  }

  /** A table can be used for cases 0..n-1 that pass no operands. */
  predicate UsesTable(cases: seq<Case>, otherArgs: seq<Operand>) {
    Consecutive(SortCases(cases)) && |cases| >= 2 && NoArgs(cases) && otherArgs == []
  }

  function Chain(cases: seq<Case>, names: seq<Block>): (r: seq<Op>)
    ensures |r| == |cases|
  {
    seq(|cases|, i requires 0 <= i < |cases| =>
      BrIfEq(Depth(names, cases[i].target), cases[i].target, cases[i].args, cases[i].value))
  }

  function SwitchOps(cases: seq<Case>, otherwise: Block, otherArgs: seq<Operand>, names: seq<Block>): seq<Op> {
    if UsesTable(cases, otherArgs) then
      var sorted := SortCases(cases);
      [BrTable(seq(|sorted|, i requires 0 <= i < |sorted| => Depth(names, sorted[i].target)),
               Depth(names, otherwise), otherArgs)]
    else
      Chain(cases, names) + [Br(Depth(names, otherwise), otherwise, otherArgs)]
  }

  /** Of the cases 0..n-1 exactly one has a given value: a table entry is the first match. */
  lemma {:induction false} FirstMatch(cases: seq<Case>, otherwise: Edge, v: int)
    ensures var e := TakeCase(cases, otherwise, v);
            || (exists c :: c in cases && c.value == v && e == Edge(c.target, c.args))
            || (e == otherwise && forall c :: c in cases ==> c.value != v)
  {
    if cases != [] {
      if cases[0].value == v {
        assert cases[0] in cases;
      } else {
        FirstMatch(cases[1..], otherwise, v);
        assert cases == [cases[0]] + cases[1..];
      }
    }
  }

  /** The table and the list of cases choose the same edge for every discriminant. */
  lemma TableChoice(cases: seq<Case>, otherwise: Block, otherArgs: seq<Operand>, v: int)
    requires UsesTable(cases, otherArgs)
    ensures TakeCase(cases, Edge(otherwise, otherArgs), v) ==
            if 0 <= v < |cases| then Edge(SortCases(cases)[v].target, []) else Edge(otherwise, [])
  {
    var sorted := SortCases(cases);
    FirstMatch(cases, Edge(otherwise, otherArgs), v);
    forall c | c in cases && c.value == v
      ensures 0 <= v < |cases| && sorted[v] == c
    {
      SortMembers(cases, c);
      var i :| 0 <= i < |sorted| && sorted[i] == c;
    }
    if 0 <= v < |cases| {
      SortMembers(cases, sorted[v]);
      assert sorted[v] in sorted;
    }
  }

  ghost predicate HasValue(cases: seq<Case>, v: int) {
    exists k :: 0 <= k < |cases| && cases[k].value == v
  }

  /** The values are 0..n-1, in any order. */
  ghost predicate Dense(cases: seq<Case>) {
    forall v :: 0 <= v < |cases| ==> HasValue(cases, v)
  }

  lemma {:induction false} NotBefore(sorted: seq<Case>, v: nat, k: nat)
    requires Ascending(sorted) && Dense(sorted) && k < |sorted| && v < |sorted| && sorted[k].value == v
    ensures v <= k
    decreases v
  {
    if v > 0 {
      assert HasValue(sorted, v - 1);
      var j :| 0 <= j < |sorted| && sorted[j].value == v - 1;
      NotBefore(sorted, v - 1, j);
    }
  }

  lemma {:induction false} NotBehind(sorted: seq<Case>, v: nat, k: nat)
    requires Ascending(sorted) && Dense(sorted) && k < |sorted| && v < |sorted| && sorted[k].value == v
    ensures k <= v
    decreases |sorted| - v
  {
    if v + 1 < |sorted| {
      assert HasValue(sorted, v + 1);
      var j :| 0 <= j < |sorted| && sorted[j].value == v + 1;
      NotBehind(sorted, v + 1, j);
    }
  }

  lemma ConsecutiveExactly(cases: seq<Case>)
    ensures Consecutive(SortCases(cases)) <==> Dense(cases)
  {
    hide SortCases;
    SortKeeps(cases);
    var sorted := SortCases(cases);
    forall c ensures c in sorted <==> c in cases { SortMembers(cases, c); }
    if Dense(cases) {
      forall v | 0 <= v < |sorted| ensures HasValue(sorted, v) {
        assert HasValue(cases, v);
        var j :| 0 <= j < |cases| && cases[j].value == v;
        assert cases[j] in sorted;
      }
      forall v: nat | v < |sorted| ensures sorted[v].value == v {
        assert HasValue(sorted, v);
        var k: nat :| k < |sorted| && sorted[k].value == v;
        NotBefore(sorted, v, k);
        NotBehind(sorted, v, k);
      }
    }
    if Consecutive(sorted) {
      forall v | 0 <= v < |cases| ensures HasValue(cases, v) {
        assert sorted[v] in cases;
        var k :| 0 <= k < |cases| && cases[k] == sorted[v];
        assert cases[k].value == v;
      }
    }
  }

  /** A switch is one table exactly when there are two cases or more, their values are 0..n-1 and no edge
      passes operands; its entries are the labels of the cases by value. Otherwise the cases are compared one
      after the other. */
  lemma TableExactly(cases: seq<Case>, otherwise: Block, otherArgs: seq<Operand>, names: seq<Block>)
    ensures var ops := SwitchOps(cases, otherwise, otherArgs, names);
            if |cases| >= 2 && Dense(cases) && NoArgs(cases) && otherArgs == [] then
              && |ops| == 1 && ops[0].BrTable? && |ops[0].depths| == |cases|
              && ops[0].defaultDepth == Depth(names, otherwise)
              && forall k :: 0 <= k < |cases| ==>
                   0 <= cases[k].value < |cases| && ops[0].depths[cases[k].value] == Depth(names, cases[k].target)
            else |ops| == |cases| + 1 && ops[|cases|].Br? && forall k :: 0 <= k < |cases| ==> ops[k].BrIfEq?
  {
    hide SortCases, Depth;
    ConsecutiveExactly(cases);
    var sorted := SortCases(cases);
    if UsesTable(cases, otherArgs) {
      forall k | 0 <= k < |cases| ensures 0 <= cases[k].value < |cases| && sorted[cases[k].value] == cases[k] {
        SortMembers(cases, cases[k]);
        assert cases[k] in cases;
        var j :| 0 <= j < |sorted| && sorted[j] == cases[k];
      }
    }
  }

  // ---- terminators ----

  function TerminatorOps(t: Terminator, source: Block, rank: map<Block, nat>, names: seq<Block>,
                         epilogue: Option<Block>)
    : seq<Op>
    requires source in rank && forall s :: s in Successors(t) ==> s in rank
  {
    match t
    case Return =>
      if epilogue.Some? then [Br(Depth(names, epilogue.value), epilogue.value, [])] else [Op.Return]
    case Unreachable => [Trap]
    case Goto(target, args) =>
      assert target in Successors(t);
      if Next(rank, source, target) then [ArgStore(target, args)] else [Br(Depth(names, target), target, args)]
    case Branch(ifTrue, trueArgs, ifFalse, falseArgs) =>
      assert ifTrue in Successors(t) && ifFalse in Successors(t);
      if Next(rank, source, ifTrue) && !Next(rank, source, ifFalse) then
        [BrIf(Depth(names, ifFalse), ifFalse, falseArgs, true), ArgStore(ifTrue, trueArgs)]
      else if Next(rank, source, ifFalse) then
        [BrIf(Depth(names, ifTrue), ifTrue, trueArgs, false), ArgStore(ifFalse, falseArgs)]
      else
        [BrIf(Depth(names, ifTrue), ifTrue, trueArgs, false), Br(Depth(names, ifFalse), ifFalse, falseArgs)]
    case SwitchInt(cases, otherwise, otherArgs) => SwitchOps(cases, otherwise, otherArgs, names)
    case Suspend(resume, args) => [Br(Depth(names, resume), resume, args)]
  }

  lemma TerminatorOpsFlat(t: Terminator, source: Block, rank: map<Block, nat>, names: seq<Block>,
                          epilogue: Option<Block>)
    requires source in rank && forall s :: s in Successors(t) ==> s in rank
    ensures var ops := TerminatorOps(t, source, rank, names, epilogue);
            ops != [] && forall i :: 0 <= i < |ops| ==> !ops[i].Structural() && !ops[i].BlockContent?
  {
  }

  /** A jump or branch ends by running into the next block when that is where it may go, and by a jump
      elsewhere only when it is not. */
  lemma FallsThrough(t: Terminator, source: Block, rank: map<Block, nat>, names: seq<Block>, epilogue: Option<Block>)
    requires source in rank && (t.Goto? || t.Branch?) && forall s :: s in Successors(t) ==> s in rank
    ensures var ops := TerminatorOps(t, source, rank, names, epilogue);
            var next := exists s :: s in Successors(t) && rank[s] == rank[source] + 1;
            && |ops| == (if t.Goto? then 1 else 2)
            && (if next then ops[|ops| - 1].ArgStore? && ops[|ops| - 1].target in rank
                             && rank[ops[|ops| - 1].target] == rank[source] + 1
                else ops[|ops| - 1].Br?)
  {
    if t.Goto? {
      assert t.target in Successors(t);
    } else {
      assert t.ifTrue in Successors(t) && t.ifFalse in Successors(t);
    }
  }
}
