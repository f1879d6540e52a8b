/** Straight-line stack code between barriers, and what it means for two codes to behave alike. */
module StackCode {
  import opened Wrappers

  /** Pure instructions take `pops` operands and leave one result; every instruction that can branch,
      trap, call, or touch memory is a barrier. */
  datatype Instr =
    | Get(x: nat)
    | Set(x: nat)
    | Tee(x: nat)
    | Drop
    | Pure(op: nat, pops: nat)
    | Barrier(id: nat)

  type Value = int
  type Locals = seq<Value>
  type Stack = seq<Value>

  /** The result of each pure instruction on its operands. */
  type Meaning = (nat, seq<Value>) -> Value

  datatype State = State(locals: Locals, stack: Stack)

  /** One instruction that is not a barrier; None when an operand or a local is missing. */
  function Step(sem: Meaning, i: Instr, s: State): Option<State>
    requires !i.Barrier?
  {
    var n := |s.stack|;
    match i
    case Get(x) => if x < |s.locals| then Some(s.(stack := s.stack + [s.locals[x]])) else None
    case Set(x) =>
      if x < |s.locals| && n > 0 then Some(State(s.locals[x := s.stack[n - 1]], s.stack[..n - 1])) else None
    case Tee(x) =>
      if x < |s.locals| && n > 0 then Some(s.(locals := s.locals[x := s.stack[n - 1]])) else None
    case Drop => if n > 0 then Some(s.(stack := s.stack[..n - 1])) else None
    case Pure(op, pops) =>
      if pops <= n then Some(s.(stack := s.stack[..n - pops] + [sem(op, s.stack[n - pops..])])) else None
  }

  predicate Plain(code: seq<Instr>) {
    forall k :: 0 <= k < |code| ==> !code[k].Barrier?
  }

  function Exec(sem: Meaning, code: seq<Instr>, s: State): Option<State>
    requires Plain(code)
  {
    if code == [] then Some(s)
    else
      match Step(sem, code[0], s)
      case None => None
      case Some(t) => Exec(sem, code[1..], t)
  }

  lemma {:induction false} ExecConcat(sem: Meaning, a: seq<Instr>, b: seq<Instr>, s: State)
    requires Plain(a) && Plain(b)
    ensures Exec(sem, a + b, s) ==
              match Exec(sem, a, s) { case None => None case Some(t) => Exec(sem, b, t) }
  {
    if a == [] {
      assert a + b == b;
    } else {
      assert (a + b)[1..] == a[1..] + b;
      var t := Step(sem, a[0], s);
      if t.Some? {
        ExecConcat(sem, a[1..], b, t.value);
      }
    }
  }

  // ---- what an instruction touches ----

  predicate Touches(i: Instr, x: nat) {
    (i.Get? || i.Set? || i.Tee?) && i.x == x
  }

  predicate Untouched(code: seq<Instr>, x: nat) {
    forall k :: 0 <= k < |code| ==> !Touches(code[k], x)
  }

  /** Locals that agree except in `dead`. */
  ghost predicate Agree(a: Locals, b: Locals, dead: set<nat>) {
    |a| == |b| && forall x :: 0 <= x < |a| && x !in dead ==> a[x] == b[x]
  }

  /** The change of height under an instruction that may run above kept operands. */
  function Effect(i: Instr): Option<(nat, nat)> {
    match i
    case Get(_) => Some((0, 1))
    case Set(_) => Some((1, 0))
    case Tee(_) => Some((1, 1))
    case Drop => Some((1, 0))
    case Pure(_, pops) => Some((pops, 1))
    case Barrier(_) => None
  }

  /** The height above the starting one after the code, if it never reaches below that. */
  function Height(code: seq<Instr>, h: nat): Option<nat> {
    if code == [] then Some(h)
    else
      match Effect(code[0])
      case None => None
      case Some(e) => if e.0 > h then None else Height(code[1..], h - e.0 + e.1)
  }

  lemma {:induction false} HeightSnoc(code: seq<Instr>, i: Instr, h: nat)
    requires Height(code, h).Some?
    ensures Plain(code)
    ensures Height(code + [i], h) ==
              match Effect(i)
              case None => None
              case Some(e) =>
                if e.0 > Height(code, h).value then None else Some(Height(code, h).value - e.0 + e.1)
  {
    if code == [] {
      assert code + [i] == [i] && [i][1..] == [];
    } else {
      assert (code + [i])[1..] == code[1..] + [i];
      var e := Effect(code[0]).value;
      HeightSnoc(code[1..], i, h - e.0 + e.1);
    }
  }

  /** The same outcome with operands kept below. */
  function Lift(low: Stack, o: Option<State>): Option<State> {
    match o
    case None => None
    case Some(t) => Some(State(t.locals, low + t.stack))
  }

  lemma PureAbove(sem: Meaning, op: nat, pops: nat, l: Locals, low: Stack, top: Stack)
    requires pops <= |top|
    ensures Step(sem, Pure(op, pops), State(l, low + top)) == Lift(low, Step(sem, Pure(op, pops), State(l, top)))
  {
    var n, m := |low + top|, |top|;
    assert (low + top)[n - pops..] == top[m - pops..];
    assert (low + top)[..n - pops] == low + top[..m - pops];
    var v := sem(op, top[m - pops..]);
    assert low + top[..m - pops] + [v] == low + (top[..m - pops] + [v]);
  }

  lemma StepAbove(sem: Meaning, i: Instr, l: Locals, low: Stack, top: Stack)
    requires Effect(i).Some? && Effect(i).value.0 <= |top|
    ensures Step(sem, i, State(l, low + top)) == Lift(low, Step(sem, i, State(l, top)))
    ensures Step(sem, i, State(l, top)).Some? ==>
              |Step(sem, i, State(l, top)).value.stack| == |top| - Effect(i).value.0 + Effect(i).value.1
  {
    if i.Pure? {
      PureAbove(sem, i.op, i.pops, l, low, top);
    } else if i.Get? {
      if i.x < |l| {
        assert low + top + [l[i.x]] == low + (top + [l[i.x]]);
      }
    } else {
      assert (low + top)[..|low + top| - 1] == low + top[..|top| - 1];
    }
  }

  /** Code that stays above its starting height does the same whatever lies below. */
  lemma {:induction false} ExecAbove(sem: Meaning, code: seq<Instr>, l: Locals, low: Stack, top: Stack)
    requires Plain(code) && Height(code, |top|).Some?
    ensures Exec(sem, code, State(l, low + top)) == Lift(low, Exec(sem, code, State(l, top)))
    ensures Exec(sem, code, State(l, top)).Some? ==>
              |Exec(sem, code, State(l, top)).value.stack| == Height(code, |top|).value
  {
    if code != [] {
      StepAbove(sem, code[0], l, low, top);
      hide Step, Effect;
      var t := Step(sem, code[0], State(l, top));
      if t.Some? {
        ExecAbove(sem, code[1..], t.value.locals, low, t.value.stack);
      }
    }
  }

  lemma StepUntouched(sem: Meaning, i: Instr, s: State, l: Locals, x: nat)
    requires !i.Barrier? && !Touches(i, x) && Agree(s.locals, l, {x})
    requires Step(sem, i, s).Some?
    ensures var t := Step(sem, i, s).value;
            && |t.locals| == |s.locals| && (x < |l| ==> t.locals[x] == s.locals[x])
            && Step(sem, i, State(l, s.stack)).Some?
            && Step(sem, i, State(l, s.stack)).value.stack == t.stack
            && Agree(t.locals, Step(sem, i, State(l, s.stack)).value.locals, {x})
  {
  }

  /** Code that does not touch x neither changes it nor depends on it. */
  lemma {:induction false} ExecUntouched(sem: Meaning, code: seq<Instr>, s: State, l: Locals, x: nat)
    requires Plain(code) && Untouched(code, x) && Agree(s.locals, l, {x})
    requires Exec(sem, code, s).Some?
    ensures var t := Exec(sem, code, s).value;
            && |t.locals| == |s.locals| && (x < |l| ==> t.locals[x] == s.locals[x])
            && Exec(sem, code, State(l, s.stack)).Some?
            && Exec(sem, code, State(l, s.stack)).value.stack == t.stack
            && Agree(t.locals, Exec(sem, code, State(l, s.stack)).value.locals, {x})
  {
    if code != [] {
      StepUntouched(sem, code[0], s, l, x);
      var t := Step(sem, code[0], s).value;
      var u := Step(sem, code[0], State(l, s.stack)).value;
      ExecUntouched(sem, code[1..], t, u.locals, x);
    }
  }

  // ---- segments ----

  /** The stretches between barriers. */
  function Segments(code: seq<Instr>): (r: seq<seq<Instr>>)
    ensures |r| == |Barriers(code)| + 1
    ensures forall k :: 0 <= k < |r| ==> Plain(r[k])
  {
    if code == [] then [[]]
    else if code[0].Barrier? then [[]] + Segments(code[1..])
    else
      var rest := Segments(code[1..]);
      [[code[0]] + rest[0]] + rest[1..]
  }

  function Barriers(code: seq<Instr>): seq<nat> {
    if code == [] then []
    else if code[0].Barrier? then [code[0].id] + Barriers(code[1..])
    else Barriers(code[1..])
  }

  /** The last stretch of p runs into the first of q. */
  function Join(p: seq<seq<Instr>>, q: seq<seq<Instr>>): seq<seq<Instr>>
    requires p != [] && q != []
  {
    p[..|p| - 1] + [p[|p| - 1] + q[0]] + q[1..]
  }

  lemma JoinCons(s: seq<Instr>, p: seq<seq<Instr>>, q: seq<seq<Instr>>)
    requires p != [] && q != []
    ensures Join([s] + p, q) == [s] + Join(p, q)
  {
    assert ([s] + p)[..|p|] == [s] + p[..|p| - 1];
  }

  lemma JoinGlue(i: Instr, p: seq<seq<Instr>>, q: seq<seq<Instr>>)
    requires p != [] && q != []
    ensures Join([[i] + p[0]] + p[1..], q) == [[i] + Join(p, q)[0]] + Join(p, q)[1..]
  {
    var g := [[i] + p[0]] + p[1..];
    if |p| == 1 {
      assert [i] + (p[0] + q[0]) == [i] + p[0] + q[0];
      assert g[..0] == [] && p[..0] == [];
    } else {
      assert g[..|g| - 1] == [[i] + p[0]] + p[1..|p| - 1];
    }
  }

  lemma JoinEmpty(q: seq<seq<Instr>>)
    requires q != []
    ensures Join([[]], q) == q
  {
    assert [] + q[0] == q[0];
  }

  lemma {:induction false} BarriersConcat(a: seq<Instr>, b: seq<Instr>)
    ensures Barriers(a + b) == Barriers(a) + Barriers(b)
  {
    if a == [] {
      assert a + b == b;
    } else {
      assert (a + b)[1..] == a[1..] + b;
      BarriersConcat(a[1..], b);
    }
  }

  lemma {:induction false} SegmentsConcat(a: seq<Instr>, b: seq<Instr>)
    ensures Segments(a + b) == Join(Segments(a), Segments(b))
  {
    hide Join, Barriers;
    if a == [] {
      assert a + b == b;
      JoinEmpty(Segments(b));
    } else {
      assert (a + b)[1..] == a[1..] + b && (a + b)[0] == a[0];
      SegmentsConcat(a[1..], b);
      if a[0].Barrier? {
        JoinCons([], Segments(a[1..]), Segments(b));
      } else {
        JoinGlue(a[0], Segments(a[1..]), Segments(b));
      }
    }
  }

  lemma {:induction false} PlainSegment(code: seq<Instr>)
    requires Plain(code)
    ensures Barriers(code) == [] && Segments(code) == [code]
  {
    if code != [] {
      PlainSegment(code[1..]);
      assert [code[0]] + code[1..] == code;
    }
  }

  lemma {:induction false} SegmentsUntouched(code: seq<Instr>, x: nat, k: nat)
    requires Untouched(code, x) && k < |Segments(code)|
    ensures Untouched(Segments(code)[k], x)
  {
    if code != [] {
      var rest := Segments(code[1..]);
      if code[0].Barrier? {
        if k > 0 {
          SegmentsUntouched(code[1..], x, k - 1);
        }
      } else {
        SegmentsUntouched(code[1..], x, k);
      }
    }
  }

  // ---- simulation ----

  /** Wherever stretch a runs through, stretch b runs through with the same stack and with locals
      that keep agreeing outside `dead`. */
  ghost predicate Follows(sem: Meaning, a: seq<Instr>, b: seq<Instr>, dead: set<nat>)
    requires Plain(a) && Plain(b)
  {
    forall s: State, l: Locals ::
      Agree(s.locals, l, dead) && Exec(sem, a, s).Some? ==> FollowsAt(sem, a, b, dead, s, l)
  }

  ghost predicate FollowsAt(sem: Meaning, a: seq<Instr>, b: seq<Instr>, dead: set<nat>, s: State, l: Locals)
    requires Plain(a) && Plain(b) && Exec(sem, a, s).Some?
  {
    var t, u := Exec(sem, a, s).value, Exec(sem, b, State(l, s.stack));
    u.Some? && u.value.stack == t.stack && Agree(t.locals, u.value.locals, dead)
  }

  /** The codes have the same barriers, and each stretch of b follows that of a. */
  ghost predicate Simulates(sem: Meaning, a: seq<Instr>, b: seq<Instr>, dead: set<nat>) {
    && Barriers(a) == Barriers(b)
    && forall k :: 0 <= k < |Segments(a)| ==> Follows(sem, Segments(a)[k], Segments(b)[k], dead)
  }

  lemma FollowsThrough(sem: Meaning, a: seq<Instr>, b: seq<Instr>, c: seq<Instr>, d: set<nat>, e: set<nat>)
    requires Plain(a) && Plain(b) && Plain(c) && Follows(sem, a, b, d) && Follows(sem, b, c, e)
    ensures Follows(sem, a, c, d + e)
  {
    forall s: State, l: Locals | Agree(s.locals, l, d + e) && Exec(sem, a, s).Some?
      ensures FollowsAt(sem, a, c, d + e, s, l)
    {
      var mid: Locals := seq(|l|, x requires 0 <= x < |l| => if x in d then l[x] else s.locals[x]);
      assert Agree(s.locals, mid, d) && Agree(mid, l, e);
      assert FollowsAt(sem, a, b, d, s, mid);
      assert FollowsAt(sem, b, c, e, State(mid, s.stack), l);
    }
  }

  lemma SimulatesThrough(sem: Meaning, a: seq<Instr>, b: seq<Instr>, c: seq<Instr>, d: set<nat>, e: set<nat>)
    requires Simulates(sem, a, b, d) && Simulates(sem, b, c, e)
    ensures Simulates(sem, a, c, d + e)
  {
    hide Segments, Barriers, Follows;
    forall k | 0 <= k < |Segments(a)|
      ensures Follows(sem, Segments(a)[k], Segments(c)[k], d + e)
    {
      FollowsThrough(sem, Segments(a)[k], Segments(b)[k], Segments(c)[k], d, e);
    }
  }

  // ---- rewriting inside a code ----

  lemma FollowsSelf(sem: Meaning, a: seq<Instr>)
    requires Plain(a)
    ensures Follows(sem, a, a, {})
  {
    hide Exec;
    forall s: State, l: Locals | Agree(s.locals, l, {}) && Exec(sem, a, s).Some?
      ensures FollowsAt(sem, a, a, {}, s, l)
    {
      assert s.locals == l;
      assert s == State(l, s.stack);
    }
  }

  lemma FollowsUntouched(sem: Meaning, a: seq<Instr>, x: nat)
    requires Plain(a) && Untouched(a, x)
    ensures Follows(sem, a, a, {x})
  {
    hide Exec, Untouched;
    forall s: State, l: Locals | Agree(s.locals, l, {x}) && Exec(sem, a, s).Some?
      ensures FollowsAt(sem, a, a, {x}, s, l)
    {
      ExecUntouched(sem, a, s, l, x);
    }
  }

  lemma FollowsConcat(sem: Meaning, a: seq<Instr>, a': seq<Instr>, b: seq<Instr>, b': seq<Instr>, dead: set<nat>)
    requires Plain(a) && Plain(a') && Plain(b) && Plain(b')
    requires Follows(sem, a, a', dead) && Follows(sem, b, b', dead)
    ensures Follows(sem, a + b, a' + b', dead)
  {
    hide Exec, Plain, Agree;
    assert Plain(a + b) && Plain(a' + b') by { PlainConcat(a, b); PlainConcat(a', b'); }
    forall s: State, l: Locals | Agree(s.locals, l, dead) && Exec(sem, a + b, s).Some?
      ensures FollowsAt(sem, a + b, a' + b', dead, s, l)
    {
      ExecConcat(sem, a, b, s);
      assert FollowsAt(sem, a, a', dead, s, l);
      var t, u := Exec(sem, a, s).value, Exec(sem, a', State(l, s.stack)).value;
      assert FollowsAt(sem, b, b', dead, t, u.locals);
      ExecConcat(sem, a', b', State(l, s.stack));
      assert u == State(u.locals, t.stack);
    }
  }

  lemma PlainConcat(a: seq<Instr>, b: seq<Instr>)
    requires Plain(a) && Plain(b)
    ensures Plain(a + b)
  {
  }

  /** Every stretch of the code follows itself. */
  ghost predicate Steady(sem: Meaning, code: seq<Instr>, dead: set<nat>) {
    forall k :: 0 <= k < |Segments(code)| ==> Follows(sem, Segments(code)[k], Segments(code)[k], dead)
  }

  lemma SteadyEmpty(sem: Meaning, code: seq<Instr>)
    ensures Steady(sem, code, {})
  {
    hide Follows, Segments;
    forall k | 0 <= k < |Segments(code)|
      ensures Follows(sem, Segments(code)[k], Segments(code)[k], {})
    {
      FollowsSelf(sem, Segments(code)[k]);
    }
  }

  lemma SteadyUntouched(sem: Meaning, code: seq<Instr>, x: nat)
    requires Untouched(code, x)
    ensures Steady(sem, code, {x})
  {
    hide Follows, Segments, Untouched;
    forall k | 0 <= k < |Segments(code)|
      ensures Follows(sem, Segments(code)[k], Segments(code)[k], {x})
    {
      SegmentsUntouched(code, x, k);
      FollowsUntouched(sem, Segments(code)[k], x);
    }
  }

  lemma SegmentsAround(pre: seq<Instr>, a: seq<Instr>, post: seq<Instr>)
    requires Plain(a)
    ensures Barriers(pre + a + post) == Barriers(pre) + Barriers(post)
    ensures var p, q := Segments(pre), Segments(post);
            Segments(pre + a + post) == p[..|p| - 1] + [p[|p| - 1] + a + q[0]] + q[1..]
  {
    hide Segments, Barriers, Join;
    PlainSegment(a);
    BarriersConcat(pre, a);
    BarriersConcat(pre + a, post);
    SegmentsConcat(pre, a);
    SegmentsConcat(pre + a, post);
    JoinAround(Segments(pre), a, Segments(post));
  }

  lemma JoinAround(p: seq<seq<Instr>>, a: seq<Instr>, q: seq<seq<Instr>>)
    requires p != [] && q != []
    ensures Join(p, [a]) != []
    ensures Join(Join(p, [a]), q) == p[..|p| - 1] + [p[|p| - 1] + a + q[0]] + q[1..]
  {
    var init, last := p[..|p| - 1], p[|p| - 1] + a;
    var r := Join(p, [a]);
    assert r == init + [last];
    assert r[..|r| - 1] == init && r[|r| - 1] == last;
  }

  /** Replacing one stretch of straight code by one that follows it. */
  lemma SimulatesInside(sem: Meaning, pre: seq<Instr>, a: seq<Instr>, b: seq<Instr>, post: seq<Instr>, dead: set<nat>)
    requires Plain(a) && Plain(b) && Follows(sem, a, b, dead)
    requires Steady(sem, pre, dead) && Steady(sem, post, dead)
    ensures Simulates(sem, pre + a + post, pre + b + post, dead)
  {
    hide Segments, Barriers, Follows, Plain;
    SegmentsAround(pre, a, post);
    SegmentsAround(pre, b, post);
    var p, q := Segments(pre), Segments(post);
    var n := |p| - 1;
    FollowsConcat(sem, p[n], p[n], a, b, dead);
    PlainConcat(p[n], a);
    PlainConcat(p[n], b);
    FollowsConcat(sem, p[n] + a, p[n] + b, q[0], q[0], dead);
    var r, t := Segments(pre + a + post), Segments(pre + b + post);
    forall k | 0 <= k < |r|
      ensures Follows(sem, r[k], t[k], dead)
    {
      if k < n {
        assert r[k] == p[k] == t[k];
      } else if k > n {
        assert r[k] == q[k - n] == t[k];
      }
    }
  }

  // ---- runs ----

  type World = int

  /** What a barrier makes of the world and the stack: the end, or a jump to after some barrier. */
  datatype Next = Stop(world: World) | Jump(world: World, stack: Stack, segment: nat)

  type Control = (nat, World, Stack) -> Next

  datatype Event = Event(barrier: nat, world: World, stack: Stack)

  datatype End = Finished(world: World, stack: Stack) | Stopped(world: World) | Running | Stuck

  datatype Run = Run(trace: seq<Event>, end: End)

  /** A run of the code from its k-th stretch, through at most `fuel` barriers. */
  function RunFrom(sem: Meaning, control: Control, code: seq<Instr>, k: nat, s: State, w: World, fuel: nat): Run
    requires k < |Segments(code)|
    decreases fuel
  {
    match Exec(sem, Segments(code)[k], s)
    case None => Run([], Stuck)
    case Some(t) =>
      if k == |Barriers(code)| then Run([], Finished(w, t.stack))
      else if fuel == 0 then Run([], Running)
      else
        var e := Event(k, w, t.stack);
        match control(k, w, t.stack)
        case Stop(w') => Run([e], Stopped(w'))
        case Jump(w', stack, j) =>
          if j >= |Segments(code)| then Run([e], Stuck)
          else
            var rest := RunFrom(sem, control, code, j, State(t.locals, stack), w', fuel - 1);
            Run([e] + rest.trace, rest.end)
  }

  /** A code that simulates another gives the same run: the same barriers in the same worlds with the
      same operands, and the same end. */
  lemma {:induction false} SameRun(sem: Meaning, control: Control, a: seq<Instr>, b: seq<Instr>, dead: set<nat>,
                                   k: nat, s: State, l: Locals, w: World, fuel: nat)
    requires Simulates(sem, a, b, dead) && Agree(s.locals, l, dead) && k < |Segments(a)|
    requires RunFrom(sem, control, a, k, s, w, fuel).end != Stuck
    ensures RunFrom(sem, control, b, k, State(l, s.stack), w, fuel) == RunFrom(sem, control, a, k, s, w, fuel)
    decreases fuel
  {
    hide Segments, Barriers, Agree, Exec;
    assert FollowsAt(sem, Segments(a)[k], Segments(b)[k], dead, s, l);
    var t, u := Exec(sem, Segments(a)[k], s).value, Exec(sem, Segments(b)[k], State(l, s.stack)).value;
    if k != |Barriers(a)| && fuel > 0 {
      var next := control(k, w, t.stack);
      if next.Jump? && next.segment < |Segments(a)| {
        SameRun(sem, control, a, b, dead, next.segment, State(t.locals, next.stack), u.locals, next.world, fuel - 1);
      }
    }
  }
}
