/** AMIR functions as far as storage for temporaries is concerned, and their runs. */
module Amir {
  import opened Wrappers

  type Temp = nat

  /** A statement: the temporary it defines, and the ones its operands read. */
  datatype Stmt = Stmt(def: Option<Temp>, uses: seq<Temp>)

  /** A block: its parameters, its statements, and the operands of its terminator. */
  datatype Block = Block(params: seq<Temp>, stmts: seq<Stmt>, leaves: seq<Temp>)

  /** `types` gives each temporary's type; `params` holds the receiver too. */
  datatype Func = Func(types: seq<nat>, params: seq<Temp>, blocks: seq<Block>)

  predicate Below(ts: seq<Temp>, n: nat) {
    forall k :: 0 <= k < |ts| ==> ts[k] < n
  }

  predicate StmtFits(s: Stmt, n: nat) {
    (s.def.Some? ==> s.def.value < n) && Below(s.uses, n)
  }

  predicate BlockFits(b: Block, n: nat) {
    && Below(b.params, n) && Below(b.leaves, n)
    && forall k :: 0 <= k < |b.stmts| ==> StmtFits(b.stmts[k], n)
  }

  /** Every temporary mentioned exists; the first one holds the result. */
  predicate WellFormed(f: Func) {
    && f.types != [] && Below(f.params, |f.types|)
    && forall b :: 0 <= b < |f.blocks| ==> BlockFits(f.blocks[b], |f.types|)
  }

  // ---- runs with a storage map ----

  type Value = int
  type World = int

  /** What the statement at a position computes from its operands, and its effect on the world. */
  type Compute = (nat, nat, seq<Value>, World) -> (Value, World)

  datatype Leave = Stop(world: World) | Enter(block: nat, values: seq<Value>, world: World)

  /** Where a block's terminator goes, and what it passes to the parameters there. */
  type Decide = (nat, seq<Value>, World) -> Leave

  /** The operands a statement or terminator saw. */
  datatype Event = Event(block: nat, position: nat, values: seq<Value>, world: World)

  /** `slots[t]` is where temporary t is stored. */
  type Slots = seq<nat>

  predicate Fits(f: Func, slots: Slots, env: seq<Value>) {
    |slots| == |f.types| == |env| && Below(slots, |env|)
  }

  function Read(slots: Slots, env: seq<Value>, ts: seq<Temp>): seq<Value>
    requires Below(slots, |env|) && Below(ts, |slots|)
  {
    seq(|ts|, k requires 0 <= k < |ts| => env[slots[ts[k]]])
  }

  function Write(slots: Slots, env: seq<Value>, ts: seq<Temp>, vs: seq<Value>): (r: seq<Value>)
    requires Below(slots, |env|) && Below(ts, |slots|) && |ts| == |vs|
    ensures |r| == |env|
    decreases |ts|
  {
    if ts == [] then env
    else Write(slots, env[slots[ts[0]] := vs[0]], ts[1..], vs[1..])
  }

  /** The state after one statement. */
  function StepEnv(slots: Slots, env: seq<Value>, s: Stmt, v: Value): (r: seq<Value>)
    requires Below(slots, |env|) && StmtFits(s, |slots|)
    ensures |r| == |env|
  {
    if s.def.Some? then env[slots[s.def.value] := v] else env
  }

  /** A run from position p of block b, through at most `fuel` statements and terminators; a
      terminator also hands over the result temporary. */
  function Run(f: Func, slots: Slots, compute: Compute, decide: Decide,
               b: nat, p: nat, env: seq<Value>, w: World, fuel: nat): seq<Event>
    requires WellFormed(f) && Fits(f, slots, env)
    decreases fuel
  {
    if fuel == 0 || b >= |f.blocks| || p > |f.blocks[b].stmts| then []
    else
      var block := f.blocks[b];
      assert BlockFits(block, |f.types|);
      if p < |block.stmts| then
        var s := block.stmts[p];
        assert StmtFits(s, |f.types|);
        var vs := Read(slots, env, s.uses);
        var r := compute(b, p, vs, w);
        [Event(b, p, vs, w)] + Run(f, slots, compute, decide, b, p + 1, StepEnv(slots, env, s, r.0), r.1, fuel - 1)
      else
        var vs := Read(slots, env, block.leaves) + [env[slots[0]]];
        var e := Event(b, p, vs, w);
        match decide(b, vs, w)
        case Stop(_) => [e]
        case Enter(c, values, w') =>
          if c >= |f.blocks| || |values| != |f.blocks[c].params| then [e]
          else
            assert BlockFits(f.blocks[c], |f.types|);
            [e] + Run(f, slots, compute, decide, c, 0, Write(slots, env, f.blocks[c].params, values), w', fuel - 1)
  }

  /** Each temporary in a slot of its own. */
  function Identity(n: nat): (r: Slots)
    ensures |r| == n && Below(r, n) && forall k :: 0 <= k < n ==> r[k] == k
  {
    seq(n, k => k)
  }
}
