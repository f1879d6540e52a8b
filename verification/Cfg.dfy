/** Control-flow graphs of AMIR functions and what a walk through one visits. */
module Cfg {

  type Block = nat
  type Operand = nat

  datatype Case = Case(value: int, target: Block, args: seq<Operand>)

  datatype Terminator =
    | Return
    | Unreachable
    | Goto(target: Block, args: seq<Operand>)
    | Branch(ifTrue: Block, trueArgs: seq<Operand>, ifFalse: Block, falseArgs: seq<Operand>)
    | SwitchInt(cases: seq<Case>, otherwise: Block, otherArgs: seq<Operand>)
    | Suspend(resume: Block, args: seq<Operand>)

  type Func = seq<Terminator>

  function Targets(cases: seq<Case>): seq<Block> {
    seq(|cases|, i requires 0 <= i < |cases| => cases[i].target)
  }

  function Successors(t: Terminator): seq<Block> {
    match t
    case Return => []
    case Unreachable => []
    case Goto(target, _) => [target]
    case Branch(ifTrue, _, ifFalse, _) => [ifTrue, ifFalse]
    case SwitchInt(cases, otherwise, _) => Targets(cases) + [otherwise]
    case Suspend(resume, _) => [resume]
  }

  // ---- walks ----

  /** An edge taken: its target, and the operands passed to the target's parameters. */
  datatype Edge = Edge(target: Block, args: seq<Operand>)

  /** The first case that matches, else the default. */
  function TakeCase(cases: seq<Case>, otherwise: Edge, v: int): Edge {
    if cases == [] then otherwise
    else if cases[0].value == v then Edge(cases[0].target, cases[0].args)
    else TakeCase(cases[1..], otherwise, v)
  }

  /** The edge a terminator takes when its condition or discriminant is `v`. */
  function Take(t: Terminator, v: int): Edge
    requires !t.Return? && !t.Unreachable?
  {
    match t
    case Goto(target, args) => Edge(target, args)
    case Branch(ifTrue, trueArgs, ifFalse, falseArgs) =>
      if v != 0 then Edge(ifTrue, trueArgs) else Edge(ifFalse, falseArgs)
    case SwitchInt(cases, otherwise, otherArgs) => TakeCase(cases, Edge(otherwise, otherArgs), v)
    case Suspend(resume, args) => Edge(resume, args)
  }

  lemma {:induction false} TakeCaseTarget(cases: seq<Case>, otherwise: Edge, v: int)
    ensures TakeCase(cases, otherwise, v).target in Targets(cases) + [otherwise.target]
  {
    if cases != [] && cases[0].value == v {
      assert Targets(cases)[0] == cases[0].target;
    } else if cases != [] {
      TakeCaseTarget(cases[1..], otherwise, v);
      assert Targets(cases) == [cases[0].target] + Targets(cases[1..]);
    }
  }

  lemma TakeTarget(t: Terminator, v: int)
    requires !t.Return? && !t.Unreachable?
    ensures Take(t, v).target in Successors(t)
  {
    if t.SwitchInt? {
      TakeCaseTarget(t.cases, Edge(t.otherwise, t.otherArgs), v);
    }
  }

  /** A block entered and what its parameters were set to. */
  datatype Visit = Visit(block: Block, args: seq<Operand>)

  /** How a run ends; `Waiting` when no outcome is left for the next block. */
  datatype Exit = Returned | Trapped | Waiting | Stuck

  datatype Run = Run(trace: seq<Visit>, exit: Exit)

  /** Every successor of a block on the list is on the list too. */
  ghost predicate Closed(f: Func, order: seq<Block>) {
    forall b :: b in order ==> b < |f| && forall t :: t in Successors(f[b]) ==> t in order
  }

  /** The walk from block `b`: the outcome of each block visited comes from `inputs`. */
  ghost function Walk(f: Func, order: seq<Block>, b: Block, args: seq<Operand>, inputs: seq<int>): Run
    requires Closed(f, order) && b in order
    decreases |inputs|
  {
    if inputs == [] then Run([Visit(b, args)], Waiting)
    else if f[b].Return? then Run([Visit(b, args)], Returned)
    else if f[b].Unreachable? then Run([Visit(b, args)], Trapped)
    else
      TakeTarget(f[b], inputs[0]);
      var e := Take(f[b], inputs[0]);
      var rest := Walk(f, order, e.target, e.args, inputs[1..]);
      Run([Visit(b, args)] + rest.trace, rest.exit)
  }
}
