/** Storage reuse for temporaries confined to one block. */
module TempSlots {
  import opened Amir
  import opened Wrappers

  // ---- where temporaries are defined and used ----

  predicate DefAt(f: Func, t: Temp, b: nat, p: nat) {
    b < |f.blocks| && p < |f.blocks[b].stmts| && f.blocks[b].stmts[p].def == Some(t)
  }

  /** A terminator's operands count as used right after the last statement. */
  predicate UseAt(f: Func, t: Temp, b: nat, p: nat) {
    && b < |f.blocks| && p <= |f.blocks[b].stmts|
    && t in (if p < |f.blocks[b].stmts| then f.blocks[b].stmts[p].uses else f.blocks[b].leaves)
  }

  /** Temporaries that live outside single blocks: the result, parameters and block parameters. */
  predicate Dedicated(f: Func, t: Temp) {
    t == 0 || t in f.params || exists b :: 0 <= b < |f.blocks| && t in f.blocks[b].params
  }

  /** The span of a temporary: defined in `block` at `start`, last used at `end`. */
  datatype Interval = Interval(block: nat, start: nat, end: nat, temp: Temp)

  /** The temporary is defined once, used only later in that block, last at `end` if at all. */
  ghost predicate Confined(f: Func, i: Interval) {
    && i.temp < |f.types| && !Dedicated(f, i.temp)
    && DefAt(f, i.temp, i.block, i.start) && i.start <= i.end
    && (forall b: nat, p: nat :: DefAt(f, i.temp, b, p) ==> b == i.block && p == i.start)
    && (forall b: nat, p: nat :: UseAt(f, i.temp, b, p) ==> b == i.block && i.start < p <= i.end)
    && (i.end == i.start || UseAt(f, i.temp, i.block, i.end))
  }

  // ---- what makes a sharing safe ----

  /** The spans of all temporaries that may share, each listed once. */
  ghost predicate Spans(f: Func, intervals: seq<Interval>) {
    && (forall k :: 0 <= k < |intervals| ==> Confined(f, intervals[k]))
    && forall j, k :: 0 <= j < k < |intervals| ==> intervals[j].temp != intervals[k].temp
  }

  ghost predicate Listed(intervals: seq<Interval>, t: Temp) {
    exists k :: 0 <= k < |intervals| && intervals[k].temp == t
  }

  /** Two spans never hold their values at the same time. */
  ghost predicate Disjoint(i: Interval, j: Interval) {
    i.block == j.block ==> i.end < j.start || j.end < i.start
  }

  /** Only confined temporaries share, and only when their types agree and their spans are apart. */
  ghost predicate Safe(f: Func, intervals: seq<Interval>, slots: Slots) {
    && |slots| == |f.types| && Below(slots, |slots|)
    && (forall t: nat :: t < |slots| ==> f.types[slots[t]] == f.types[t])
    && (forall k :: 0 <= k < |intervals| ==> intervals[k].temp < |slots|)
    && (forall t: nat :: t < |slots| && !Listed(intervals, t) ==> slots[t] == t)
    && (forall k :: 0 <= k < |intervals| ==> Listed(intervals, slots[intervals[k].temp]))
    && forall j, k :: 0 <= j < k < |intervals| && slots[intervals[j].temp] == slots[intervals[k].temp] ==>
         Disjoint(intervals[j], intervals[k])
  }

  /** What slot storage holds at position p of block b: every temporary with a slot of its own, and
      every shared one that is between its definition and its last use. */
  ghost predicate Holds(f: Func, intervals: seq<Interval>, slots: Slots, b: nat, p: nat, env: seq<Value>,
                        own: seq<Value>)
    requires Fits(f, slots, env) && |own| == |env|
  {
    && (forall t: nat :: t < |slots| && !Listed(intervals, t) ==> env[t] == own[t])
    && forall k :: 0 <= k < |intervals| && intervals[k].block == b && intervals[k].start < p <= intervals[k].end ==>
         intervals[k].temp < |slots| && env[slots[intervals[k].temp]] == own[intervals[k].temp]
  }

  lemma ReadsSame(f: Func, intervals: seq<Interval>, slots: Slots, b: nat, p: nat,
                  env: seq<Value>, own: seq<Value>, ts: seq<Temp>)
    requires WellFormed(f) && Spans(f, intervals) && Safe(f, intervals, slots)
    requires Fits(f, slots, env) && |own| == |env| && Holds(f, intervals, slots, b, p, env, own)
    requires Below(ts, |slots|) && forall k :: 0 <= k < |ts| ==> UseAt(f, ts[k], b, p)
    ensures Read(slots, env, ts) == Read(Identity(|slots|), own, ts)
  {
    hide Confined, Safe, Listed;
    forall k | 0 <= k < |ts|
      ensures env[slots[ts[k]]] == own[ts[k]]
    {
      var t := ts[k];
      if Listed(intervals, t) {
        var j := IndexOf(intervals, t);
        assert Confined(f, intervals[j]);
        ConfinedUse(f, intervals[j], b, p);
      } else {
        SafeOwn(f, intervals, slots, t);
      }
    }
  }

  lemma ConfinedUse(f: Func, i: Interval, b: nat, p: nat)
    requires Confined(f, i) && UseAt(f, i.temp, b, p)
    ensures b == i.block && i.start < p <= i.end
  {
  }

  /** A statement keeps it: the slot it writes holds no other value that is still needed. */
  lemma StepHolds(f: Func, intervals: seq<Interval>, slots: Slots, b: nat, p: nat,
                  env: seq<Value>, own: seq<Value>, v: Value)
    requires WellFormed(f) && Spans(f, intervals) && Safe(f, intervals, slots)
    requires Fits(f, slots, env) && |own| == |env| && Holds(f, intervals, slots, b, p, env, own)
    requires b < |f.blocks| && p < |f.blocks[b].stmts| && StmtFits(f.blocks[b].stmts[p], |slots|)
    ensures Holds(f, intervals, slots, b, p + 1, StepEnv(slots, env, f.blocks[b].stmts[p], v),
                  StepEnv(Identity(|slots|), own, f.blocks[b].stmts[p], v))
  {
    hide Safe, Listed, Confined, Disjoint, WellFormed, Holds, Spans;
    var s := f.blocks[b].stmts[p];
    if s.def.Some? {
      assert DefAt(f, s.def.value, b, p);
      DefHolds(f, intervals, slots, b, p, env, own, s.def.value, v);
    } else {
      NoDefHolds(f, intervals, slots, b, p, env, own);
    }
  }

  lemma NoDefHolds(f: Func, intervals: seq<Interval>, slots: Slots, b: nat, p: nat, env: seq<Value>, own: seq<Value>)
    requires Spans(f, intervals) && Fits(f, slots, env) && |own| == |env| && Holds(f, intervals, slots, b, p, env, own)
    requires b < |f.blocks| && p < |f.blocks[b].stmts| && f.blocks[b].stmts[p].def.None?
    ensures Holds(f, intervals, slots, b, p + 1, env, own)
  {
    hide Listed, Confined;
    forall k | 0 <= k < |intervals| && intervals[k].block == b && intervals[k].start < p + 1 <= intervals[k].end
      ensures intervals[k].start < p
    {
      assert Confined(f, intervals[k]);
      ConfinedDef(f, intervals[k], b, p);
    }
  }

  lemma DefHolds(f: Func, intervals: seq<Interval>, slots: Slots, b: nat, p: nat,
                 env: seq<Value>, own: seq<Value>, d: Temp, v: Value)
    requires Spans(f, intervals) && Safe(f, intervals, slots)
    requires Fits(f, slots, env) && |own| == |env| && Holds(f, intervals, slots, b, p, env, own)
    requires DefAt(f, d, b, p) && d < |slots|
    ensures Holds(f, intervals, slots, b, p + 1, env[slots[d] := v], own[d := v])
  {
    hide Confined, Disjoint, Safe, Listed, DefAt;
    var env', own' := env[slots[d] := v], own[d := v];
    forall t: nat | t < |slots| && !Listed(intervals, t)
      ensures env'[t] == own'[t]
    {
      SlotOwner(f, intervals, slots, d, t);
    }
    forall k | 0 <= k < |intervals| && intervals[k].block == b && intervals[k].start < p + 1 <= intervals[k].end
      ensures intervals[k].temp < |slots| && env'[slots[intervals[k].temp]] == own'[intervals[k].temp]
    {
      Apart(f, intervals, slots, k, b, p, d);
    }
  }

  /** Temporaries with a slot of their own keep it to themselves. */
  lemma SlotOwner(f: Func, intervals: seq<Interval>, slots: Slots, d: Temp, t: Temp)
    requires Spans(f, intervals) && Safe(f, intervals, slots) && d < |slots| && t < |slots| && !Listed(intervals, t)
    ensures slots[d] == t <==> d == t
  {
    if Listed(intervals, d) {
      var k :| 0 <= k < |intervals| && intervals[k].temp == d;
      assert Listed(intervals, slots[intervals[k].temp]);
    }
  }

  /** A value needed after position p of block b is in another slot than what is defined there. */
  lemma Apart(f: Func, intervals: seq<Interval>, slots: Slots, k: nat, b: nat, p: nat, d: Temp)
    requires Spans(f, intervals) && Safe(f, intervals, slots) && k < |intervals| && d < |slots|
    requires DefAt(f, d, b, p)
    requires intervals[k].block == b && intervals[k].start < p + 1 <= intervals[k].end
    ensures intervals[k].temp < |slots|
    ensures intervals[k].temp != d ==> intervals[k].start < p && slots[intervals[k].temp] != slots[d]
  {
    hide Confined, Disjoint, Safe, Listed, DefAt;
    var i := intervals[k];
    assert Confined(f, i);
    ConfinedDef(f, i, b, i.start);
    SafeFits(f, intervals, slots, k);
    if i.temp != d {
      OneDef(f, i.temp, d, b, i.start, p);
      if Listed(intervals, d) {
        var j := IndexOf(intervals, d);
        assert Confined(f, intervals[j]);
        ConfinedDef(f, intervals[j], b, p);
        SafePair(f, intervals, slots, j, k);
        assert !Disjoint(intervals[j], i) by { NotDisjoint(intervals[j], i); }
      } else {
        SlotOwner(f, intervals, slots, i.temp, d);
        SafeOwn(f, intervals, slots, d);
      }
    }
  }

  lemma OneDef(f: Func, t: Temp, d: Temp, b: nat, q: nat, p: nat)
    requires DefAt(f, t, b, q) && DefAt(f, d, b, p) && t != d
    ensures q != p
  {
  }

  lemma NotDisjoint(i: Interval, j: Interval)
    requires i.block == j.block && j.start <= i.start <= j.end && i.start <= i.end
    ensures !Disjoint(i, j)
  {
  }

  lemma IndexOf(intervals: seq<Interval>, t: Temp) returns (k: nat)
    requires Listed(intervals, t)
    ensures k < |intervals| && intervals[k].temp == t
  {
    k :| 0 <= k < |intervals| && intervals[k].temp == t;
  }

  lemma ConfinedDef(f: Func, i: Interval, b: nat, p: nat)
    requires Confined(f, i)
    ensures i.start <= i.end && DefAt(f, i.temp, i.block, i.start)
    ensures DefAt(f, i.temp, b, p) ==> b == i.block && p == i.start
  {
  }

  lemma SafeFits(f: Func, intervals: seq<Interval>, slots: Slots, k: nat)
    requires Safe(f, intervals, slots) && k < |intervals|
    ensures intervals[k].temp < |slots|
  {
  }

  lemma SafeOwn(f: Func, intervals: seq<Interval>, slots: Slots, t: Temp)
    requires Safe(f, intervals, slots) && t < |slots| && !Listed(intervals, t)
    ensures slots[t] == t
  {
  }

  lemma SafePair(f: Func, intervals: seq<Interval>, slots: Slots, j: nat, k: nat)
    requires Safe(f, intervals, slots) && j < |intervals| && k < |intervals| && j != k
    ensures intervals[j].temp < |slots| && intervals[k].temp < |slots|
    ensures slots[intervals[j].temp] == slots[intervals[k].temp] ==> Disjoint(intervals[j], intervals[k])
  {
  }

  /** Block parameters have slots of their own. */
  lemma {:induction false} WriteHolds(f: Func, intervals: seq<Interval>, slots: Slots, b: nat,
                                      env: seq<Value>, own: seq<Value>, ts: seq<Temp>, vs: seq<Value>)
    requires Safe(f, intervals, slots) && Spans(f, intervals) && Fits(f, slots, env) && |own| == |env|
    requires forall t: nat :: t < |slots| && !Listed(intervals, t) ==> env[t] == own[t]
    requires |ts| == |vs| && Below(ts, |slots|) && forall k :: 0 <= k < |ts| ==> !Listed(intervals, ts[k])
    ensures Holds(f, intervals, slots, b, 0, Write(slots, env, ts, vs), Write(Identity(|slots|), own, ts, vs))
    decreases |ts|
  {
    hide Listed, Disjoint, Confined;
    if ts != [] {
      var env', own' := env[slots[ts[0]] := vs[0]], own[ts[0] := vs[0]];
      assert slots[ts[0]] == ts[0];
      WriteHolds(f, intervals, slots, b, env', own', ts[1..], vs[1..]);
    }
  }

  lemma ParamsUnlisted(f: Func, intervals: seq<Interval>, c: nat)
    requires Spans(f, intervals) && c < |f.blocks|
    ensures !Listed(intervals, 0)
    ensures forall k :: 0 <= k < |f.blocks[c].params| ==> !Listed(intervals, f.blocks[c].params[k])
  {
    forall t: nat | Listed(intervals, t)
      ensures t != 0 && t !in f.blocks[c].params
    {
      var k :| 0 <= k < |intervals| && intervals[k].temp == t;
      assert Confined(f, intervals[k]);
    }
  }

  /** Entering a block sets its parameters alike. */
  lemma EnterHolds(f: Func, intervals: seq<Interval>, slots: Slots, b: nat, p: nat, c: nat,
                   env: seq<Value>, own: seq<Value>, vs: seq<Value>)
    requires Safe(f, intervals, slots) && Spans(f, intervals) && Fits(f, slots, env) && |own| == |env|
    requires Holds(f, intervals, slots, b, p, env, own)
    requires c < |f.blocks| && |vs| == |f.blocks[c].params| && Below(f.blocks[c].params, |slots|)
    ensures Holds(f, intervals, slots, c, 0, Write(slots, env, f.blocks[c].params, vs),
                  Write(Identity(|slots|), own, f.blocks[c].params, vs))
  {
    hide Listed, Safe, Spans, Write;
    ParamsUnlisted(f, intervals, c);
    WriteHolds(f, intervals, slots, c, env, own, f.blocks[c].params, vs);
  }

  /** Sharing is invisible: on every path every statement and terminator sees the same operands. */
  lemma {:induction false} SameRun(f: Func, intervals: seq<Interval>, slots: Slots, compute: Compute, decide: Decide,
                                   b: nat, p: nat, env: seq<Value>, own: seq<Value>, w: World, fuel: nat)
    requires WellFormed(f) && Spans(f, intervals) && Safe(f, intervals, slots)
    requires Fits(f, slots, env) && |own| == |env| && Holds(f, intervals, slots, b, p, env, own)
    ensures Run(f, slots, compute, decide, b, p, env, w, fuel)
            == Run(f, Identity(|slots|), compute, decide, b, p, own, w, fuel)
    decreases fuel
  {
    hide Spans, Safe, Listed, Holds, Write, StepEnv, Read;
    if fuel == 0 || b >= |f.blocks| || p > |f.blocks[b].stmts| {
    } else {
      var block := f.blocks[b];
      assert BlockFits(block, |f.types|);
      if p < |block.stmts| {
        var s := block.stmts[p];
        assert StmtFits(s, |f.types|);
        ReadsSame(f, intervals, slots, b, p, env, own, s.uses);
        var r := compute(b, p, Read(slots, env, s.uses), w);
        StepHolds(f, intervals, slots, b, p, env, own, r.0);
        SameRun(f, intervals, slots, compute, decide, b, p + 1, StepEnv(slots, env, s, r.0),
                StepEnv(Identity(|slots|), own, s, r.0), r.1, fuel - 1);
      } else {
        ReadsSame(f, intervals, slots, b, p, env, own, block.leaves);
        ResultSame(f, intervals, slots, b, p, env, own);
        var vs := Read(slots, env, block.leaves) + [env[slots[0]]];
        var next := decide(b, vs, w);
        if next.Enter? && next.block < |f.blocks| && |next.values| == |f.blocks[next.block].params| {
          var c := f.blocks[next.block];
          assert BlockFits(c, |f.types|);
          EnterHolds(f, intervals, slots, b, p, next.block, env, own, next.values);
          SameRun(f, intervals, slots, compute, decide, next.block, 0, Write(slots, env, c.params, next.values),
                  Write(Identity(|slots|), own, c.params, next.values), next.world, fuel - 1);
        }
      }
    }
  }

  lemma ResultSame(f: Func, intervals: seq<Interval>, slots: Slots, b: nat, p: nat, env: seq<Value>, own: seq<Value>)
    requires WellFormed(f) && Spans(f, intervals) && Safe(f, intervals, slots) && b < |f.blocks|
    requires Fits(f, slots, env) && |own| == |env| && Holds(f, intervals, slots, b, p, env, own)
    ensures env[slots[0]] == own[0]
  {
    ParamsUnlisted(f, intervals, b);
  }
}
