/** Running the emitted operations visits exactly the blocks the graph walk visits,
    with the same operands passed along every edge, and ends the same way. */
module Simulation {
  import opened Cfg
  import opened StructuredCode
  import opened Terminators
  import opened Layout
  import opened Wrappers

  lemma {:induction false} FlatEnclosing(ops: seq<Op>, p: nat, q: nat)
    requires p <= q <= |ops| && forall x :: p <= x < q ==> !ops[x].Structural()
    ensures Enclosing(ops, q) == Enclosing(ops, p)
  {
    if p < q {
      FlatEnclosing(ops, p, q - 1);
    }
  }

  lemma LaidBlock(pl: Plan, ops: seq<Op>, pcs: seq<nat>, i: nat)
    requires Laid(pl, ops, pcs) && i < |pcs|
    ensures pl.Valid() && |pcs| == |pl.order| && pcs[i] < |ops| && BlockAt(pl, ops, pcs, i)
    ensures WellNested(ops) && Enclosing(ops, |ops|) == []
    ensures pl.order[i] < |pl.f| && pl.order[i] in pl.rank && pl.rank[pl.order[i]] == i
    ensures forall s :: s in Successors(pl.f[pl.order[i]]) ==> s in pl.rank
  {
    hide Enclosing, WellNested, AllStructural, Tail, LeadsTo, Shared, NamesAt;
    assert BlockAt(pl, ops, pcs, i);
    OrderedSuccessors(pl, i);
  }

  lemma LaidShared(pl: Plan, ops: seq<Op>, pcs: seq<nat>, i: nat)
    requires Laid(pl, ops, pcs) && i < |pcs| && pl.epilogue.Some?
    ensures ops != [] && ops[|ops| - 1] == Op.Return && pcs[i] <= |ops| && pl.epilogue.value in NamesAt(ops, pcs[i])
    ensures forall b :: 0 <= b < |ops| && ops[b].LoopBegin? ==> ops[b].header != pl.epilogue.value
    ensures forall e :: 0 <= e < |ops| && ops[e] == BlockEnd(pl.epilogue.value) ==> e + 2 == |ops|
  {
    hide Enclosing, WellNested, BlockAt, LeadsTo, NamesAt;
  }

  /** The branch operations of block i. */
  ghost function TailOf(pl: Plan, ops: seq<Op>, pcs: seq<nat>, i: nat): seq<Op>
    requires Laid(pl, ops, pcs) && i < |pcs|
  {
    LaidBlock(pl, ops, pcs, i);
    Tail(pl, i, NamesAt(ops, pcs[i]))
  }

  lemma TailOp(pl: Plan, ops: seq<Op>, pcs: seq<nat>, i: nat, k: nat)
    requires Laid(pl, ops, pcs) && i < |pcs| && k < |TailOf(pl, ops, pcs, i)|
    ensures pcs[i] + 1 + k < |ops| && ops[pcs[i] + 1 + k] == TailOf(pl, ops, pcs, i)[k]
    ensures !ops[pcs[i] + 1 + k].Structural()
  {
    hide Enclosing, Laid, AllStructural, TerminatorOps;
    LaidBlock(pl, ops, pcs, i);
    var p, tail := pcs[i] + 1, TailOf(pl, ops, pcs, i);
    TerminatorOpsFlat(pl.f[pl.order[i]], pl.order[i], pl.rank, NamesAt(ops, pcs[i]), pl.epilogue);
    assert ops[p..p + |tail|][k] == tail[k];
  }

  lemma TailScopes(pl: Plan, ops: seq<Op>, pcs: seq<nat>, i: nat, k: nat)
    requires Laid(pl, ops, pcs) && i < |pcs| && k <= |TailOf(pl, ops, pcs, i)|
    ensures pcs[i] + 1 + k <= |ops| && Enclosing(ops, pcs[i] + 1 + k) == Enclosing(ops, pcs[i])
  {
    hide Enclosing, Laid, AllStructural, TerminatorOps;
    LaidBlock(pl, ops, pcs, i);
    var p, tail := pcs[i] + 1, TailOf(pl, ops, pcs, i);
    forall x | pcs[i] <= x < p + k ensures !ops[x].Structural() {
      if x >= p {
        TailOp(pl, ops, pcs, i, x - p);
      }
    }
    FlatEnclosing(ops, pcs[i], p + k);
  }

  /** The machine is at the content of the edge's target with its operands stored. */
  ghost predicate Entering(pl: Plan, ops: seq<Op>, pcs: seq<nat>, c: Config, d: Config, e: Edge) {
    && e.target in pl.rank && pl.rank[e.target] < |pcs| && pcs[pl.rank[e.target]] <= |ops|
    && At(ops, d, pcs[pl.rank[e.target]])
    && d.stored == e.args && d.inputs == c.inputs && d.trace == c.trace
  }

  /** The machine stands at offset k of block i's branch operations. */
  ghost predicate InTail(pl: Plan, ops: seq<Op>, pcs: seq<nat>, i: nat, k: nat, c: Config)
    requires Laid(pl, ops, pcs) && i < |pcs|
  {
    k <= |TailOf(pl, ops, pcs, i)| && pcs[i] + 1 + k <= |ops| && At(ops, c, pcs[i] + 1 + k)
  }

  /** A branch operation there, taken. */
  lemma Taken(pl: Plan, ops: seq<Op>, pcs: seq<nat>, i: nat, k: nat, c: Config, t: Block, args: seq<Operand>)
    returns (n: nat)
    requires Laid(pl, ops, pcs) && i < |pcs| && InTail(pl, ops, pcs, i, k, c)
    requires k < |TailOf(pl, ops, pcs, i)| && t in Successors(pl.f[pl.order[i]])
    ensures Entering(pl, ops, pcs, c, Steps(ops, Jump(c, Depth(NamesAt(ops, pcs[i]), t), args), n), Edge(t, args))
  {
    hide At, Enclosing, Laid, TailOf, Tail, AllStructural, Jump;
    LaidBlock(pl, ops, pcs, i);
    TailScopes(pl, ops, pcs, i, k);
    TailOp(pl, ops, pcs, i, k);
    n := BranchArrives(pl, ops, pcs, c, pcs[i] + 1 + k, t, args);
  }

  /** Falling off the branch operations leads to the next block. */
  lemma FallsThrough(pl: Plan, ops: seq<Op>, pcs: seq<nat>, i: nat, c: Config, t: Block)
    returns (n: nat)
    requires Laid(pl, ops, pcs) && i < |pcs| && InTail(pl, ops, pcs, i, |TailOf(pl, ops, pcs, i)|, c)
    requires pl.order[i] in pl.rank && t in pl.rank && Next(pl.rank, pl.order[i], t)
    ensures Entering(pl, ops, pcs, c, Steps(ops, c, n), Edge(t, c.stored))
  {
    hide At, Enclosing, Laid, Tail;
    LaidBlock(pl, ops, pcs, i);
    assert pl.rank[t] == i + 1;
    var q := pcs[i] + 1 + |TailOf(pl, ops, pcs, i)|;
    n := pcs[i + 1] - q;
    Glide(ops, c, q, pcs[i + 1]);
  }

  /** One operation of the tail that does not branch. */
  lemma Passes(pl: Plan, ops: seq<Op>, pcs: seq<nat>, i: nat, k: nat, c: Config, d: Config)
    requires Laid(pl, ops, pcs) && i < |pcs| && InTail(pl, ops, pcs, i, k, c) && k < |TailOf(pl, ops, pcs, i)|
    requires d.pc == c.pc + 1 && d.labels == c.labels && d.exit == c.exit
    ensures InTail(pl, ops, pcs, i, k + 1, d)
  {
    hide Enclosing, Laid, TailOf;
    TailScopes(pl, ops, pcs, i, k);
    TailScopes(pl, ops, pcs, i, k + 1);
  }

  // ---- one terminator ----

  /** What running block i's branch operations with its outcome comes to. */
  ghost predicate Ends(pl: Plan, ops: seq<Op>, pcs: seq<nat>, i: nat, c: Config, d: Config)
    requires Laid(pl, ops, pcs) && i < |pcs|
  {
    LaidBlock(pl, ops, pcs, i);
    var t := pl.f[pl.order[i]];
    if t.Return? then d.exit == Some(Returned) && d.trace == c.trace
    else if t.Unreachable? then d.exit == Some(Trapped) && d.trace == c.trace
    else Entering(pl, ops, pcs, c, d, Take(t, c.value))
  }

  lemma RunReturn(pl: Plan, ops: seq<Op>, pcs: seq<nat>, i: nat, c: Config)
    returns (n: nat)
    requires Laid(pl, ops, pcs) && i < |pcs| && InTail(pl, ops, pcs, i, 0, c)
    requires pl.order[i] < |pl.f| && pl.f[pl.order[i]].Return?
    ensures Ends(pl, ops, pcs, i, c, Steps(ops, c, n))
  {
    hide Enclosing, WellNested, BlockAt, Laid, Matching, Jump;
    LaidBlock(pl, ops, pcs, i);
    TailNonempty(pl, ops, pcs, i);
    TailOp(pl, ops, pcs, i, 0);
    if pl.epilogue.None? {
      n := 1;
      assert Steps(ops, c, 1) == Step(ops, c);
    } else {
      EpilogueReached(pl, ops, pcs, i, c);
      n := 2;
      assert Steps(ops, c, 2) == Steps(ops, Step(ops, c), 1) == Step(ops, Step(ops, c));
    }
  }

  /** The branch to the shared label lands on the final return. */
  lemma EpilogueReached(pl: Plan, ops: seq<Op>, pcs: seq<nat>, i: nat, c: Config)
    requires Laid(pl, ops, pcs) && i < |pcs| && InTail(pl, ops, pcs, i, 0, c) && pl.epilogue.Some?
    ensures pcs[i] <= |ops|
    ensures var d := Jump(c, Depth(NamesAt(ops, pcs[i]), pl.epilogue.value), []);
            d.exit == c.exit && d.trace == c.trace && d.pc == |ops| - 1 && ops != [] && ops[|ops| - 1] == Op.Return
  {
    hide Enclosing, WellNested, BlockAt, Laid, Matching, TailOf, At;
    LaidBlock(pl, ops, pcs, i);
    LaidShared(pl, ops, pcs, i);
    TailScopes(pl, ops, pcs, i, 0);
    TailNonempty(pl, ops, pcs, i);
    TailOp(pl, ops, pcs, i, 0);
    EpilogueJump(ops, c, pcs[i] + 1, pl.epilogue.value);
  }

  lemma EpilogueJump(ops: seq<Op>, c: Config, p: nat, t: Block)
    requires WellNested(ops) && Enclosing(ops, |ops|) == [] && p < |ops| && At(ops, c, p) && t in NamesAt(ops, p)
    requires forall b :: 0 <= b < |ops| && ops[b].LoopBegin? ==> ops[b].header != t
    requires forall e :: 0 <= e < |ops| && ops[e] == BlockEnd(t) ==> e + 2 == |ops|
    ensures var d := Jump(c, Depth(NamesAt(ops, p), t), []);
            d.exit == c.exit && d.trace == c.trace && d.pc == |ops| - 1
  {
    hide Enclosing, WellNested, Matching;
    var s, depth := Enclosing(ops, p), Depth(NamesAt(ops, p), t);
    JumpArrives(ops, c, p, depth, []);
    EndNamed(ops, s[|s| - 1 - depth]);
  }

  lemma TailNonempty(pl: Plan, ops: seq<Op>, pcs: seq<nat>, i: nat)
    requires Laid(pl, ops, pcs) && i < |pcs|
    ensures TailOf(pl, ops, pcs, i) != []
  {
    hide Enclosing, WellNested, Laid;
    LaidBlock(pl, ops, pcs, i);
    TerminatorOpsFlat(pl.f[pl.order[i]], pl.order[i], pl.rank, NamesAt(ops, pcs[i]), pl.epilogue);
  }

  /** An unconditional branch at offset k. */
  lemma RunBr(pl: Plan, ops: seq<Op>, pcs: seq<nat>, i: nat, k: nat, c: Config, t: Block, args: seq<Operand>)
    returns (n: nat)
    requires Laid(pl, ops, pcs) && i < |pcs| && InTail(pl, ops, pcs, i, k, c) && k < |TailOf(pl, ops, pcs, i)|
    requires t in Successors(pl.f[pl.order[i]])
    requires Step(ops, c) == Jump(c, Depth(NamesAt(ops, pcs[i]), t), args)
    ensures Entering(pl, ops, pcs, c, Steps(ops, c, n), Edge(t, args))
  {
    hide Laid, InTail, Entering, TailOf, Step, Jump, NamesAt;
    var m := Taken(pl, ops, pcs, i, k, c, t, args);
    n := m + 1;
  }

  /** Storing the operands of the next block, at the end of the tail. */
  lemma RunStore(pl: Plan, ops: seq<Op>, pcs: seq<nat>, i: nat, k: nat, c: Config, t: Block, args: seq<Operand>)
    returns (n: nat)
    requires Laid(pl, ops, pcs) && i < |pcs| && InTail(pl, ops, pcs, i, k, c) && k + 1 == |TailOf(pl, ops, pcs, i)|
    requires pl.order[i] in pl.rank && t in pl.rank && Next(pl.rank, pl.order[i], t)
    requires TailOf(pl, ops, pcs, i)[k] == ArgStore(t, args)
    ensures Entering(pl, ops, pcs, c, Steps(ops, c, n), Edge(t, args))
  {
    hide Laid, TailOf, Enclosing, LabelsAt;
    TailOp(pl, ops, pcs, i, k);
    var d := Step(ops, c);
    assert d == c.(pc := c.pc + 1, stored := args);
    Passes(pl, ops, pcs, i, k, c, d);
    var m := FallsThrough(pl, ops, pcs, i, d, t);
    n := m + 1;
  }

  lemma RunGoto(pl: Plan, ops: seq<Op>, pcs: seq<nat>, i: nat, c: Config)
    returns (n: nat)
    requires Laid(pl, ops, pcs) && i < |pcs| && InTail(pl, ops, pcs, i, 0, c)
    requires pl.order[i] < |pl.f| && (pl.f[pl.order[i]].Goto? || pl.f[pl.order[i]].Suspend?)
    ensures Ends(pl, ops, pcs, i, c, Steps(ops, c, n))
  {
    hide Laid, Enclosing, LabelsAt, Entering, BlockAt, NamesAt, WellNested, Jump;
    LaidBlock(pl, ops, pcs, i);
    TailOp(pl, ops, pcs, i, 0);
    var t := pl.f[pl.order[i]];
    var e := Take(t, c.value);
    assert e.target in Successors(t);
    if t.Goto? && Next(pl.rank, pl.order[i], e.target) {
      n := RunStore(pl, ops, pcs, i, 0, c, e.target, e.args);
    } else {
      n := RunBr(pl, ops, pcs, i, 0, c, e.target, e.args);
    }
  }

  lemma RunBranch(pl: Plan, ops: seq<Op>, pcs: seq<nat>, i: nat, c: Config)
    returns (n: nat)
    requires Laid(pl, ops, pcs) && i < |pcs| && InTail(pl, ops, pcs, i, 0, c)
    requires pl.order[i] < |pl.f| && pl.f[pl.order[i]].Branch?
    ensures Ends(pl, ops, pcs, i, c, Steps(ops, c, n))
  {
    hide Laid, Enclosing, LabelsAt, Entering, BlockAt, NamesAt, WellNested, Jump;
    LaidBlock(pl, ops, pcs, i);
    TailOp(pl, ops, pcs, i, 0);
    TailOp(pl, ops, pcs, i, 1);
    var t := pl.f[pl.order[i]];
    var e := Take(t, c.value);
    assert t.ifTrue in Successors(t) && t.ifFalse in Successors(t);
    var first := ops[c.pc];
    if (c.value != 0) != first.invert {
      n := RunBr(pl, ops, pcs, i, 0, c, e.target, e.args);
    } else {
      var d := Step(ops, c);
      assert d == c.(pc := c.pc + 1);
      Passes(pl, ops, pcs, i, 0, c, d);
      var m;
      if ops[d.pc].ArgStore? {
        m := RunStore(pl, ops, pcs, i, 1, d, e.target, e.args);
      } else {
        m := RunBr(pl, ops, pcs, i, 1, d, e.target, e.args);
      }
      n := m + 1;
      EnteringFrom(pl, ops, pcs, c, d, Steps(ops, d, m), e);
    }
  }

  lemma EnteringFrom(pl: Plan, ops: seq<Op>, pcs: seq<nat>, c: Config, d: Config, x: Config, e: Edge)
    requires Entering(pl, ops, pcs, d, x, e) && d.inputs == c.inputs && d.trace == c.trace
    ensures Entering(pl, ops, pcs, c, x, e)
  {
  }

  /** The chain of equality branches from its k-th case on. */
  lemma {:induction false} RunChain(pl: Plan, ops: seq<Op>, pcs: seq<nat>, i: nat, k: nat, c: Config)
    returns (n: nat)
    requires Laid(pl, ops, pcs) && i < |pcs| && InTail(pl, ops, pcs, i, k, c)
    requires pl.order[i] < |pl.f| && pl.f[pl.order[i]].SwitchInt?
    requires var t := pl.f[pl.order[i]]; !UsesTable(t.cases, t.otherArgs) && k <= |t.cases|
    ensures var t := pl.f[pl.order[i]];
            Entering(pl, ops, pcs, c, Steps(ops, c, n), TakeCase(t.cases[k..], Edge(t.otherwise, t.otherArgs), c.value))
    decreases |pl.f[pl.order[i]].cases| - k
  {
    hide Laid, Enclosing, LabelsAt, Entering, BlockAt, NamesAt, WellNested, Jump, UsesTable;
    LaidBlock(pl, ops, pcs, i);
    TailOp(pl, ops, pcs, i, k);
    var t := pl.f[pl.order[i]];
    if k == |t.cases| {
      assert t.otherwise in Successors(t) by { LastSuccessor(t); }
      n := RunBr(pl, ops, pcs, i, k, c, t.otherwise, t.otherArgs);
    } else {
      var arm := t.cases[k];
      assert arm.target in Successors(t) by { CaseSuccessor(t, k); }
      assert t.cases[k..][1..] == t.cases[k + 1..];
      if c.value == arm.value {
        n := RunBr(pl, ops, pcs, i, k, c, arm.target, arm.args);
      } else {
        var d := Step(ops, c);
        assert d == c.(pc := c.pc + 1);
        Passes(pl, ops, pcs, i, k, c, d);
        var m := RunChain(pl, ops, pcs, i, k + 1, d);
        n := m + 1;
        EnteringFrom(pl, ops, pcs, c, d, Steps(ops, d, m),
                     TakeCase(t.cases[k + 1..], Edge(t.otherwise, t.otherArgs), c.value));
      }
    }
  }

  lemma CaseSuccessor(t: Terminator, k: nat)
    requires t.SwitchInt? && k < |t.cases|
    ensures t.cases[k].target in Successors(t)
  {
    assert Targets(t.cases)[k] == t.cases[k].target;
  }

  lemma LastSuccessor(t: Terminator)
    requires t.SwitchInt?
    ensures t.otherwise in Successors(t)
  {
    assert Successors(t)[|t.cases|] == t.otherwise;
  }

  lemma RunSwitch(pl: Plan, ops: seq<Op>, pcs: seq<nat>, i: nat, c: Config)
    returns (n: nat)
    requires Laid(pl, ops, pcs) && i < |pcs| && InTail(pl, ops, pcs, i, 0, c)
    requires pl.order[i] < |pl.f| && pl.f[pl.order[i]].SwitchInt?
    ensures Ends(pl, ops, pcs, i, c, Steps(ops, c, n))
  {
    hide Laid, Enclosing, LabelsAt, Entering, BlockAt, NamesAt, WellNested, Jump, UsesTable;
    LaidBlock(pl, ops, pcs, i);
    var t := pl.f[pl.order[i]];
    if UsesTable(t.cases, t.otherArgs) {
      TailOp(pl, ops, pcs, i, 0);
      TableChoice(t.cases, t.otherwise, t.otherArgs, c.value);
      TableNoArgs(t.cases, t.otherArgs);
      var e := Take(t, c.value);
      TakeTarget(t, c.value);
      n := RunBr(pl, ops, pcs, i, 0, c, e.target, e.args);
    } else {
      n := RunChain(pl, ops, pcs, i, 0, c);
      assert t.cases[0..] == t.cases;
    }
  }

  lemma TableNoArgs(cases: seq<Case>, otherArgs: seq<Operand>)
    requires UsesTable(cases, otherArgs)
    ensures otherArgs == []
  {
  }

  lemma RunTail(pl: Plan, ops: seq<Op>, pcs: seq<nat>, i: nat, c: Config)
    returns (n: nat)
    requires Laid(pl, ops, pcs) && i < |pcs| && InTail(pl, ops, pcs, i, 0, c)
    ensures Ends(pl, ops, pcs, i, c, Steps(ops, c, n))
  {
    LaidBlock(pl, ops, pcs, i);
    match pl.f[pl.order[i]]
    case Return => n := RunReturn(pl, ops, pcs, i, c);
    case Unreachable => n := RunTrap(pl, ops, pcs, i, c);
    case Goto(_, _) => n := RunGoto(pl, ops, pcs, i, c);
    case Branch(_, _, _, _) => n := RunBranch(pl, ops, pcs, i, c);
    case SwitchInt(_, _, _) => n := RunSwitch(pl, ops, pcs, i, c);
    case Suspend(_, _) => n := RunGoto(pl, ops, pcs, i, c);
  }

  lemma RunTrap(pl: Plan, ops: seq<Op>, pcs: seq<nat>, i: nat, c: Config)
    returns (n: nat)
    requires Laid(pl, ops, pcs) && i < |pcs| && InTail(pl, ops, pcs, i, 0, c)
    requires pl.order[i] < |pl.f| && pl.f[pl.order[i]].Unreachable?
    ensures Ends(pl, ops, pcs, i, c, Steps(ops, c, n))
  {
    hide Laid, Enclosing, LabelsAt, BlockAt, NamesAt, WellNested;
    LaidBlock(pl, ops, pcs, i);
    TailOp(pl, ops, pcs, i, 0);
    n := 1;
    assert Steps(ops, c, 1) == Step(ops, c);
  }

  // ---- whole runs ----

  /** From the content of a block on, the machine does what the walk does. */
  lemma {:induction false} RunFrom(pl: Plan, ops: seq<Op>, pcs: seq<nat>, i: nat, c: Config)
    returns (n: nat)
    requires Laid(pl, ops, pcs) && i < |pcs| && pcs[i] <= |ops| && At(ops, c, pcs[i])
    ensures pl.order[i] in pl.order
    ensures var run := Walk(pl.f, pl.order, pl.order[i], c.stored, c.inputs);
            var d := Steps(ops, c, n);
            d.exit == Some(run.exit) && d.trace == c.trace + run.trace
    decreases |c.inputs|
  {
    hide Laid, BlockAt, WellNested, TailOf, Step, InTail, At, Walk;
    LaidBlock(pl, ops, pcs, i);
    var b := pl.order[i];
    var d := Step(ops, c);
    RunContent(pl, ops, pcs, i, c);
    WalkStops(pl.f, pl.order, b, c.stored, c.inputs);
    if c.inputs == [] {
      n := 1;
      assert Steps(ops, c, 1) == Steps(ops, d, 0) == d;
    } else {
      var m := RunTail(pl, ops, pcs, i, d);
      var x := Steps(ops, d, m);
      n := m + 1;
      if !pl.f[b].Return? && !pl.f[b].Unreachable? {
        var e := Take(pl.f[b], d.value);
        TakeTarget(pl.f[b], d.value);
        assert pl.order[pl.rank[e.target]] == e.target;
        var k := RunFrom(pl, ops, pcs, pl.rank[e.target], x);
        StepsAdd(ops, d, m, k);
        n := (m + k) + 1;
        WalkOn(pl.f, pl.order, b, c.stored, c.inputs, c.trace);
      }
    }
  }

  lemma WalkStops(f: Func, order: seq<Block>, b: Block, args: seq<Operand>, inputs: seq<int>)
    requires Closed(f, order) && b in order
    ensures inputs == [] ==> Walk(f, order, b, args, inputs) == Run([Visit(b, args)], Waiting)
    ensures inputs != [] && f[b].Return? ==> Walk(f, order, b, args, inputs) == Run([Visit(b, args)], Returned)
    ensures inputs != [] && f[b].Unreachable? ==> Walk(f, order, b, args, inputs) == Run([Visit(b, args)], Trapped)
  {
  }

  lemma WalkOn(f: Func, order: seq<Block>, b: Block, args: seq<Operand>, inputs: seq<int>, trace: seq<Visit>)
    requires Closed(f, order) && b in order && inputs != [] && !f[b].Return? && !f[b].Unreachable?
    ensures var e := Take(f[b], inputs[0]);
            && e.target in order
            && Walk(f, order, b, args, inputs).exit == Walk(f, order, e.target, e.args, inputs[1..]).exit
            && trace + Walk(f, order, b, args, inputs).trace
            == (trace + [Visit(b, args)]) + Walk(f, order, e.target, e.args, inputs[1..]).trace
  {
    TakeTarget(f[b], inputs[0]);
  }

  /** The content of a block: it is recorded, and its outcome taken from the inputs. */
  lemma RunContent(pl: Plan, ops: seq<Op>, pcs: seq<nat>, i: nat, c: Config)
    requires Laid(pl, ops, pcs) && i < |pcs| && pcs[i] <= |ops| && At(ops, c, pcs[i])
    ensures |pcs| == |pl.order|
    ensures var d := Step(ops, c);
            && d.trace == c.trace + [Visit(pl.order[i], c.stored)]
            && if c.inputs == [] then d.exit == Some(Waiting)
               else d.value == c.inputs[0] && d.inputs == c.inputs[1..] && InTail(pl, ops, pcs, i, 0, d)
  {
    hide Laid, Enclosing, BlockAt, NamesAt, WellNested, TailOf;
    LaidBlock(pl, ops, pcs, i);
    ContentOp(pl, ops, pcs, i);
    TailScopes(pl, ops, pcs, i, 0);
  }

  lemma ContentOp(pl: Plan, ops: seq<Op>, pcs: seq<nat>, i: nat)
    requires Laid(pl, ops, pcs) && i < |pcs|
    ensures pcs[i] < |ops| && ops[pcs[i]] == BlockContent(pl.order[i])
  {
    hide Enclosing, WellNested, AllStructural, Tail, LeadsTo, Shared, NamesAt;
    assert BlockAt(pl, ops, pcs, i);
  }

  /** The machine before its first operation. */
  function Start(inputs: seq<int>): Config {
    Config(0, [], 0, [], inputs, [], None)
  }

  /** After n operations the machine has ended as the walk does, having visited the
      same blocks with the same operands. */
  ghost predicate WalksIn(f: Func, order: seq<Block>, ops: seq<Op>, inputs: seq<int>, n: nat)
    requires Closed(f, order) && order != []
  {
    var run := Walk(f, order, order[0], [], inputs);
    var c := Steps(ops, Start(inputs), n);
    c.exit == Some(run.exit) && c.trace == run.trace
  }

  ghost predicate WalksOn(f: Func, order: seq<Block>, ops: seq<Op>, inputs: seq<int>)
    requires Closed(f, order) && order != []
  {
    exists n: nat :: WalksIn(f, order, ops, inputs, n)
  }

  /** The operations do what the graph does, for every sequence of outcomes. */
  ghost predicate Walks(f: Func, order: seq<Block>, ops: seq<Op>)
    requires Closed(f, order) && order != []
  {
    forall inputs: seq<int> :: WalksOn(f, order, ops, inputs)
  }

  lemma LaidWalks(pl: Plan, ops: seq<Op>, pcs: seq<nat>)
    requires Laid(pl, ops, pcs)
    ensures Walks(pl.f, pl.order, ops)
  {
    hide WellNested, BlockAt, Enclosing, WalksIn, Ranks, LeadsTo, Shared;
    forall inputs: seq<int>
      ensures WalksOn(pl.f, pl.order, ops, inputs)
    {
      var n := RunWhole(pl, ops, pcs, inputs);
    }
  }

  lemma RunWhole(pl: Plan, ops: seq<Op>, pcs: seq<nat>, inputs: seq<int>)
    returns (n: nat)
    requires Laid(pl, ops, pcs)
    ensures WalksIn(pl.f, pl.order, ops, inputs, n)
  {
    hide WellNested, BlockAt, AllStructural, Walk, Laid, Steps;
    var c := Start(inputs);
    FirstContent(pl, ops, pcs);
    assert At(ops, c, 0);
    hide At;
    var m := pcs[0];
    Glide(ops, c, 0, m);
    var d := Steps(ops, c, m);
    var k := RunFrom(pl, ops, pcs, 0, d);
    StepsAdd(ops, c, m, k);
    n := m + k;
  }

  lemma FirstContent(pl: Plan, ops: seq<Op>, pcs: seq<nat>)
    requires Laid(pl, ops, pcs)
    ensures |pcs| > 0 && pcs[0] <= |ops| && AllStructural(ops, 0, pcs[0]) && WellNested(ops)
    ensures |pl.order| > 0 && pl.order[0] in pl.order && Closed(pl.f, pl.order)
  {
    hide WellNested, BlockAt, Enclosing;
  }
}
