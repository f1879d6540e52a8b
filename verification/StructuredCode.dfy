/** The structured operations the control-flow conversion emits, and a machine for
    them: section 4.4.5 of the WebAssembly Core Specification 1.0, with the label
    stack holding the point each branch continues at. */
module StructuredCode {
  import opened Cfg
  import opened Wrappers

  datatype Op =
    | LoopBegin(header: Block)
    | LoopEnd
    | BlockBegin(landing: Block)
    | BlockEnd(landing: Block)
    | BlockContent(block: Block)
    | Br(depth: nat, target: Block, args: seq<Operand>)
    | BrIf(depth: nat, target: Block, args: seq<Operand>, invert: bool)
    | BrIfEq(depth: nat, target: Block, args: seq<Operand>, value: int)
    | BrTable(depths: seq<nat>, defaultDepth: nat, args: seq<Operand>)
    | ArgStore(target: Block, args: seq<Operand>)
    | Return
    | Trap
  {
    predicate Opens() { LoopBegin? || BlockBegin? }
    predicate Closes() { LoopEnd? || BlockEnd? }
    predicate Structural() { Opens() || Closes() }
  }

  /** Whether `end` is the end of the scope `begin` opens. */
  predicate Pairs(begin: Op, end: Op) {
    || (begin.LoopBegin? && end.LoopEnd?)
    || (begin.BlockBegin? && end.BlockEnd? && begin.landing == end.landing)
  }

  // ---- nesting ----

  /** Where the scopes that are open at position p begin, outermost first. */
  function Enclosing(ops: seq<Op>, p: nat): (s: seq<nat>)
    requires p <= |ops|
    ensures forall j :: 0 <= j < |s| ==> s[j] < p && ops[s[j]].Opens()
  {
    if p == 0 then []
    else
      var s := Enclosing(ops, p - 1);
      if ops[p - 1].Opens() then s + [p - 1]
      else if ops[p - 1].Closes() && s != [] then s[..|s| - 1]
      else s
  }

  lemma EnclosingStep(ops: seq<Op>, p: nat)
    requires p < |ops|
    ensures var s := Enclosing(ops, p);
            Enclosing(ops, p + 1) == if ops[p].Opens() then s + [p]
                                     else if ops[p].Closes() && s != [] then s[..|s| - 1]
                                     else s
  {
  }

  ghost predicate WellNested(ops: seq<Op>) {
    forall e :: 0 <= e < |ops| && ops[e].Closes() ==>
      var s := Enclosing(ops, e); s != [] && Pairs(ops[s[|s| - 1]], ops[e])
  }

  lemma NestedAt(ops: seq<Op>, e: nat)
    requires WellNested(ops) && e < |ops| && ops[e].Closes()
    ensures var s := Enclosing(ops, e); s != [] && Pairs(ops[s[|s| - 1]], ops[e])
  {
  }

  lemma {:induction false} EnclosingPrefix(ops: seq<Op>, more: seq<Op>, p: nat)
    requires p <= |ops|
    ensures Enclosing(ops + more, p) == Enclosing(ops, p)
  {
    if p > 0 {
      EnclosingPrefix(ops, more, p - 1);
    }
  }

  /** Below an open scope lie exactly the scopes that were open where it begins. */
  lemma {:induction false} EnclosingBelow(ops: seq<Op>, p: nat, j: nat)
    requires p <= |ops| && j < |Enclosing(ops, p)|
    ensures Enclosing(ops, Enclosing(ops, p)[j]) == Enclosing(ops, p)[..j]
  {
    var s := Enclosing(ops, p - 1);
    if j < |s| {
      EnclosingBelow(ops, p - 1, j);
    }
  }

  /** The first end after `p` that brings the nesting back to where `begin` stands. */
  function Matching(ops: seq<Op>, begin: nat, p: nat): (e: nat)
    requires begin < |ops| && p <= |ops|
    ensures p <= e <= |ops|
    ensures e < |ops| ==> ops[e].Closes() && |Enclosing(ops, e + 1)| == |Enclosing(ops, begin)|
    decreases |ops| - p
  {
    if p == |ops| then p
    else if ops[p].Closes() && |Enclosing(ops, p + 1)| == |Enclosing(ops, begin)| then p
    else Matching(ops, begin, p + 1)
  }

  /** The scope beginning at `begin` is open at p, with the same scopes around it. */
  ghost predicate Inside(ops: seq<Op>, begin: nat, p: nat)
    requires begin < |ops| && p <= |ops|
  {
    var k := |Enclosing(ops, begin)|;
    k < |Enclosing(ops, p)| && Enclosing(ops, p)[..k] == Enclosing(ops, begin) && Enclosing(ops, p)[k] == begin
  }

  lemma KeepsPrefix(s: seq<nat>, t: seq<nat>, k: nat)
    requires k < |s| && k < |t| && forall j :: 0 <= j <= k ==> s[j] == t[j]
    ensures t[..k] == s[..k] && t[k] == s[k]
  {
  }

  lemma InsideStep(ops: seq<Op>, begin: nat, p: nat)
    requires begin < |ops| && p < |ops| && Inside(ops, begin, p)
    ensures if ops[p].Closes() && |Enclosing(ops, p + 1)| == |Enclosing(ops, begin)|
            then Enclosing(ops, p) == Enclosing(ops, begin) + [begin] && Enclosing(ops, p + 1) == Enclosing(ops, begin)
            else Inside(ops, begin, p + 1)
  {
    hide Enclosing;
    var outer, s := Enclosing(ops, begin), Enclosing(ops, p);
    var k := |outer|;
    EnclosingStep(ops, p);
    var t := Enclosing(ops, p + 1);
    if ops[p].Opens() {
      KeepsPrefix(s, s + [p], k);
    } else if ops[p].Closes() {
      if |s| == k + 1 {
        assert s == s[..k] + [s[k]];
      } else {
        KeepsPrefix(s, s[..|s| - 1], k);
      }
    }
  }

  /** Until its end the scope stays open; its end restores what was open before it. */
  lemma {:induction false} MatchingCloses(ops: seq<Op>, begin: nat, p: nat)
    requires begin < p <= |ops| && Inside(ops, begin, p)
    ensures var e := Matching(ops, begin, p);
            if e < |ops| then
              Enclosing(ops, e) == Enclosing(ops, begin) + [begin] && Enclosing(ops, e + 1) == Enclosing(ops, begin)
            else
              Inside(ops, begin, |ops|)
    decreases |ops| - p
  {
    hide Enclosing, Inside;
    if p < |ops| {
      InsideStep(ops, begin, p);
      if !(ops[p].Closes() && |Enclosing(ops, p + 1)| == |Enclosing(ops, begin)|) {
        MatchingCloses(ops, begin, p + 1);
      }
    }
  }

  // ---- the machine ----

  /** `labels` holds where a branch to each enclosing label continues; `stored` is
      what the parameters of the next block were set to; the outcomes of the blocks
      still to be visited are in `inputs`. */
  datatype Config = Config(pc: nat, labels: seq<nat>, value: int, stored: seq<Operand>, inputs: seq<int>,
                           trace: seq<Visit>, exit: Option<Exit>)

  /** Where a branch to a scope continues: at its begin again for a loop, behind its end for a block. */
  function Continuation(ops: seq<Op>, begin: nat): nat
    requires begin < |ops|
  {
    if ops[begin].LoopBegin? then begin else Matching(ops, begin, begin + 1) + 1
  }

  /** Branching to the label at `depth`; one past the outermost is the function's own. */
  function Jump(c: Config, depth: nat, args: seq<Operand>): Config {
    var n := |c.labels|;
    if depth < n then c.(pc := c.labels[n - 1 - depth], labels := c.labels[..n - 1 - depth], stored := args)
    else if depth == n then c.(exit := Some(Returned))
    else c.(exit := Some(Stuck))
  }

  function Step(ops: seq<Op>, c: Config): Config {
    if c.exit.Some? then c
    else if c.pc >= |ops| then c.(exit := Some(Stuck))
    else
      match ops[c.pc]
      case LoopBegin(_) => c.(pc := c.pc + 1, labels := c.labels + [Continuation(ops, c.pc)])
      case BlockBegin(_) => c.(pc := c.pc + 1, labels := c.labels + [Continuation(ops, c.pc)])
      case LoopEnd => Leave(c)
      case BlockEnd(_) => Leave(c)
      case BlockContent(b) =>
        var visited := c.(trace := c.trace + [Visit(b, c.stored)]);
        if c.inputs == [] then visited.(exit := Some(Waiting))
        else visited.(pc := c.pc + 1, value := c.inputs[0], inputs := c.inputs[1..])
      case Br(depth, _, args) => Jump(c, depth, args)
      case BrIf(depth, _, args, invert) =>
        if (c.value != 0) != invert then Jump(c, depth, args) else c.(pc := c.pc + 1)
      case BrIfEq(depth, _, args, value) =>
        if c.value == value then Jump(c, depth, args) else c.(pc := c.pc + 1)
      case BrTable(depths, defaultDepth, args) =>
        Jump(c, if 0 <= c.value < |depths| then depths[c.value] else defaultDepth, args)
      case ArgStore(_, args) => c.(pc := c.pc + 1, stored := args)
      case Return => c.(exit := Some(Returned))
      case Trap => c.(exit := Some(Trapped))
  }

  function Leave(c: Config): Config {
    if c.labels == [] then c.(exit := Some(Stuck))
    else c.(pc := c.pc + 1, labels := c.labels[..|c.labels| - 1])
  }

  function Steps(ops: seq<Op>, c: Config, n: nat): Config
    decreases n
  {
    if n == 0 then c else Steps(ops, Step(ops, c), n - 1)
  }

  lemma {:induction false} StepsAdd(ops: seq<Op>, c: Config, m: nat, n: nat)
    ensures Steps(ops, Steps(ops, c, m), n) == Steps(ops, c, m + n)
    decreases m
  {
    if m > 0 {
      StepsAdd(ops, Step(ops, c), m - 1, n);
    }
  }

  // ---- labels are static ----

  function LabelsAt(ops: seq<Op>, scopes: seq<nat>): seq<nat>
    requires forall j :: 0 <= j < |scopes| ==> scopes[j] < |ops|
  {
    seq(|scopes|, j requires 0 <= j < |scopes| => Continuation(ops, scopes[j]))
  }

  /** The machine stands at `p` with exactly the labels of the scopes open there. */
  ghost predicate At(ops: seq<Op>, c: Config, p: nat)
    requires p <= |ops|
  {
    c.exit.None? && c.pc == p && c.labels == LabelsAt(ops, Enclosing(ops, p))
  }

  ghost predicate SameData(c: Config, d: Config) {
    c.value == d.value && c.stored == d.stored && c.inputs == d.inputs && c.trace == d.trace
  }

  lemma StructuralStep(ops: seq<Op>, c: Config, p: nat)
    requires WellNested(ops) && p < |ops| && ops[p].Structural() && At(ops, c, p)
    ensures At(ops, Step(ops, c), p + 1) && SameData(c, Step(ops, c))
  {
    hide Enclosing, WellNested, Matching;
    var s := Enclosing(ops, p);
    EnclosingStep(ops, p);
    if ops[p].Closes() { NestedAt(ops, p); }
    if ops[p].Opens() {
      assert LabelsAt(ops, s + [p]) == LabelsAt(ops, s) + [Continuation(ops, p)];
    } else {
      assert LabelsAt(ops, s[..|s| - 1]) == LabelsAt(ops, s)[..|s| - 1];
    }
  }

  ghost predicate AllStructural(ops: seq<Op>, p: nat, q: nat)
    requires q <= |ops|
  {
    forall x :: p <= x < q ==> ops[x].Structural()
  }

  /** Begins and ends move the machine forward and change nothing it has computed. */
  lemma {:induction false} Glide(ops: seq<Op>, c: Config, p: nat, q: nat)
    requires WellNested(ops) && p <= q <= |ops| && AllStructural(ops, p, q) && At(ops, c, p)
    ensures At(ops, Steps(ops, c, q - p), q) && SameData(c, Steps(ops, c, q - p))
    decreases q - p
  {
    hide Step, At;
    if p < q {
      StructuralStep(ops, c, p);
      Glide(ops, Step(ops, c), p + 1, q);
    }
  }

  lemma LabelsPrefix(ops: seq<Op>, scopes: seq<nat>, j: nat)
    requires forall k :: 0 <= k < |scopes| ==> scopes[k] < |ops|
    requires j < |scopes|
    ensures |LabelsAt(ops, scopes)| == |scopes|
    ensures LabelsAt(ops, scopes[..j]) == LabelsAt(ops, scopes)[..j]
    ensures LabelsAt(ops, scopes)[j] == Continuation(ops, scopes[j])
  {
  }

  /** A branch to an enclosing scope arrives where that scope continues, again with
      exactly the labels of the scopes open there. */
  lemma JumpArrives(ops: seq<Op>, c: Config, p: nat, depth: nat, args: seq<Operand>)
    requires WellNested(ops) && p < |ops| && At(ops, c, p)
    requires depth < |Enclosing(ops, p)|
    requires Enclosing(ops, |ops|) == []
    ensures var begin := Enclosing(ops, p)[|Enclosing(ops, p)| - 1 - depth];
            var to := Continuation(ops, begin);
            to <= |ops| && At(ops, Jump(c, depth, args), to)
  {
    hide Enclosing, WellNested, Continuation, LabelsAt;
    var s := Enclosing(ops, p);
    var j := |s| - 1 - depth;
    ContinuationScopes(ops, p, j);
    LabelsPrefix(ops, s, j);
  }

  /** A scope open at p continues inside exactly the scopes around it. */
  lemma ContinuationScopes(ops: seq<Op>, p: nat, j: nat)
    requires WellNested(ops) && p < |ops| && j < |Enclosing(ops, p)| && Enclosing(ops, |ops|) == []
    ensures var to := Continuation(ops, Enclosing(ops, p)[j]);
            to <= |ops| && Enclosing(ops, to) == Enclosing(ops, p)[..j]
  {
    hide Enclosing, WellNested, Matching;
    var begin := Enclosing(ops, p)[j];
    EnclosingBelow(ops, p, j);
    if ops[begin].BlockBegin? {
      EnclosingStep(ops, begin);
      MatchingCloses(ops, begin, begin + 1);
    }
  }
}
