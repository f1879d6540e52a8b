/** Keeping a local's value on the operand stack between its store and its next load. */
module Peephole {
  import opened StackCode
  import opened Wrappers

  const STACK_WINDOW := 32

  // ---- the two rewrites ----

  lemma BalancedFacts(sem: Meaning, mid: seq<Instr>, l: Locals, low: Stack)
    requires Plain(mid) && Height(mid, 0) == Some(0)
    ensures Exec(sem, mid, State(l, low)) == Lift(low, Exec(sem, mid, State(l, [])))
    ensures Exec(sem, mid, State(l, [])).Some? ==> Exec(sem, mid, State(l, [])).value.stack == []
    ensures Exec(sem, mid, State(l, low)).Some? ==> Exec(sem, mid, State(l, low)).value.stack == low
  {
    hide Exec;
    assert low + [] == low;
    ExecAbove(sem, mid, l, low, []);
  }

  lemma ExecOne(sem: Meaning, i: Instr, s: State)
    requires !i.Barrier?
    ensures Exec(sem, [i], s) == Step(sem, i, s)
  {
    assert [i][1..] == [];
  }

  /** What the store, balanced code and load do to a state. */
  lemma StoreLoad(sem: Meaning, x: nat, mid: seq<Instr>, s: State)
    requires Plain(mid) && Untouched(mid, x) && Height(mid, 0) == Some(0)
    ensures Plain([Set(x)] + mid + [Get(x)])
    ensures Exec(sem, [Set(x)] + mid + [Get(x)], s).Some? ==>
              && s.stack != [] && x < |s.locals|
              && var l := s.locals[x := s.stack[|s.stack| - 1]];
                 && Exec(sem, mid, State(l, [])).Some?
                 && Exec(sem, [Set(x)] + mid + [Get(x)], s)
                    == Some(State(Exec(sem, mid, State(l, [])).value.locals, s.stack))
  {
    hide Exec, Plain, Untouched;
    PlainOne(Set(x));
    PlainOne(Get(x));
    PlainConcat([Set(x)], mid);
    PlainConcat([Set(x)] + mid, [Get(x)]);
    ExecConcat(sem, [Set(x)] + mid, [Get(x)], s);
    ExecConcat(sem, [Set(x)], mid, s);
    ExecOne(sem, Set(x), s);
    if Exec(sem, [Set(x)] + mid + [Get(x)], s).Some? {
      var t := Step(sem, Set(x), s).value;
      var u := Exec(sem, mid, t).value;
      ExecOne(sem, Get(x), u);
      BalancedFacts(sem, mid, t.locals, t.stack);
      ExecUntouched(sem, mid, t, t.locals, x);
      assert t == State(t.locals, t.stack);
      assert s.stack == t.stack + [s.stack[|s.stack| - 1]];
    }
  }

  lemma PlainOne(i: Instr)
    requires !i.Barrier?
    ensures Plain([i])
  {
  }

  /** Storing without popping, the value waits below the balanced code. */
  lemma TeeFollows(sem: Meaning, x: nat, mid: seq<Instr>)
    requires Plain(mid) && Untouched(mid, x) && Height(mid, 0) == Some(0)
    ensures Plain([Set(x)] + mid + [Get(x)]) && Plain([Tee(x)] + mid)
    ensures Follows(sem, [Set(x)] + mid + [Get(x)], [Tee(x)] + mid, {})
  {
    hide Exec;
    var a, b := [Set(x)] + mid + [Get(x)], [Tee(x)] + mid;
    forall s: State, l: Locals | Agree(s.locals, l, {}) && Exec(sem, a, s).Some?
      ensures FollowsAt(sem, a, b, {}, s, l)
    {
      assert l == s.locals;
      StoreLoad(sem, x, mid, s);
      var l1 := s.locals[x := s.stack[|s.stack| - 1]];
      ExecConcat(sem, [Tee(x)], mid, s);
      ExecOne(sem, Tee(x), s);
      BalancedFacts(sem, mid, l1, s.stack);
      assert State(l, s.stack) == s;
    }
  }

  /** With no other use of the local, even the store can go. */
  lemma DropFollows(sem: Meaning, x: nat, mid: seq<Instr>)
    requires Plain(mid) && Untouched(mid, x) && Height(mid, 0) == Some(0)
    ensures Plain([Set(x)] + mid + [Get(x)])
    ensures Follows(sem, [Set(x)] + mid + [Get(x)], mid, {x})
  {
    hide Exec;
    var a := [Set(x)] + mid + [Get(x)];
    forall s: State, l: Locals | Agree(s.locals, l, {x}) && Exec(sem, a, s).Some?
      ensures FollowsAt(sem, a, mid, {x}, s, l)
    {
      StoreLoad(sem, x, mid, s);
      var l1 := s.locals[x := s.stack[|s.stack| - 1]];
      ExecUntouched(sem, mid, State(l1, []), l, x);
      BalancedFacts(sem, mid, l, s.stack);
    }
  }

  /** Where the rewrites apply: a store, balanced code that leaves the local alone, and its load. */
  ghost predicate Pattern(code: seq<Instr>, pre: seq<Instr>, x: nat, mid: seq<Instr>, post: seq<Instr>) {
    && code == pre + ([Set(x)] + mid + [Get(x)]) + post
    && Plain(mid) && Untouched(mid, x) && Height(mid, 0) == Some(0)
  }

  lemma TeeRewrite(sem: Meaning, code: seq<Instr>, pre: seq<Instr>, x: nat, mid: seq<Instr>, post: seq<Instr>)
    requires Pattern(code, pre, x, mid, post)
    ensures Simulates(sem, code, pre + ([Tee(x)] + mid) + post, {})
  {
    hide Simulates, Follows, Steady;
    TeeFollows(sem, x, mid);
    SteadyEmpty(sem, pre);
    SteadyEmpty(sem, post);
    SimulatesInside(sem, pre, [Set(x)] + mid + [Get(x)], [Tee(x)] + mid, post, {});
  }

  lemma DropRewrite(sem: Meaning, code: seq<Instr>, pre: seq<Instr>, x: nat, mid: seq<Instr>, post: seq<Instr>)
    requires Pattern(code, pre, x, mid, post) && Untouched(pre, x) && Untouched(post, x)
    ensures Simulates(sem, code, pre + mid + post, {x})
  {
    hide Simulates, Follows, Steady;
    DropFollows(sem, x, mid);
    SteadyUntouched(sem, pre, x);
    SteadyUntouched(sem, post, x);
    SimulatesInside(sem, pre, [Set(x)] + mid + [Get(x)], mid, post, {x});
  }

  // ---- access counts ----

  function Loads(code: seq<Instr>, x: nat): nat {
    if code == [] then 0 else Loads(code[..|code| - 1], x) + if code[|code| - 1] == Get(x) then 1 else 0
  }

  function Stores(code: seq<Instr>, x: nat): nat {
    if code == [] then 0
    else Stores(code[..|code| - 1], x) + if code[|code| - 1] == Set(x) || code[|code| - 1] == Tee(x) then 1 else 0
  }

  lemma {:induction false} CountsConcat(a: seq<Instr>, b: seq<Instr>, x: nat)
    ensures Loads(a + b, x) == Loads(a, x) + Loads(b, x)
    ensures Stores(a + b, x) == Stores(a, x) + Stores(b, x)
    decreases |b|
  {
    if b == [] {
      assert a + b == a;
    } else {
      var init := b[..|b| - 1];
      assert (a + b)[..|a + b| - 1] == a + init;
      CountsConcat(a, init, x);
    }
  }

  lemma CountsOne(i: Instr, x: nat)
    ensures Loads([i], x) == if i == Get(x) then 1 else 0
    ensures Stores([i], x) == if i == Set(x) || i == Tee(x) then 1 else 0
  {
    assert [i][..0] == [];
  }

  lemma {:induction false} NoneTouched(code: seq<Instr>, x: nat)
    requires Loads(code, x) == 0 && Stores(code, x) == 0
    ensures Untouched(code, x)
  {
    if code != [] {
      NoneTouched(code[..|code| - 1], x);
      assert code == code[..|code| - 1] + [code[|code| - 1]];
    }
  }

  lemma PartCounts(pre: seq<Instr>, mid: seq<Instr>, post: seq<Instr>, y: nat)
    ensures Loads(pre + mid + post, y) == Loads(pre, y) + Loads(mid, y) + Loads(post, y)
    ensures Stores(pre + mid + post, y) == Stores(pre, y) + Stores(mid, y) + Stores(post, y)
  {
    hide Loads, Stores;
    CountsConcat(pre, mid, y);
    CountsConcat(pre + mid, post, y);
  }

  lemma PatternCounts(code: seq<Instr>, pre: seq<Instr>, x: nat, mid: seq<Instr>, post: seq<Instr>, y: nat)
    requires Pattern(code, pre, x, mid, post)
    ensures Loads(code, y) == Loads(pre, y) + Loads(mid, y) + Loads(post, y) + if x == y then 1 else 0
    ensures Stores(code, y) == Stores(pre, y) + Stores(mid, y) + Stores(post, y) + if x == y then 1 else 0
  {
    hide Loads, Stores, Plain, Untouched, Height;
    CountsOne(Set(x), y);
    CountsOne(Get(x), y);
    PartCounts([Set(x)], mid, [Get(x)], y);
    PartCounts(pre, [Set(x)] + mid + [Get(x)], post, y);
  }

  lemma TeeCounts(pre: seq<Instr>, x: nat, mid: seq<Instr>, post: seq<Instr>, y: nat)
    ensures Loads(pre + ([Tee(x)] + mid) + post, y) == Loads(pre, y) + Loads(mid, y) + Loads(post, y)
    ensures Stores(pre + ([Tee(x)] + mid) + post, y)
            == Stores(pre, y) + Stores(mid, y) + Stores(post, y) + if x == y then 1 else 0
  {
    hide Loads, Stores;
    CountsOne(Tee(x), y);
    CountsConcat([Tee(x)], mid, y);
    PartCounts(pre, [Tee(x)] + mid, post, y);
  }

  /** No local is used more often in `now` than in `before`. */
  ghost predicate Fewer(now: seq<Instr>, before: seq<Instr>) {
    forall x: nat :: Loads(now, x) <= Loads(before, x) && Stores(now, x) <= Stores(before, x)
  }

  /** The number of loads and of stores of each local that has any. */
  method Accesses(code: seq<Instr>) returns (r: map<nat, (nat, nat)>)
    ensures forall x: nat :: (x in r && r[x] == (Loads(code, x), Stores(code, x)))
                             || (x !in r && Loads(code, x) == 0 && Stores(code, x) == 0)
  {
    r := map[];
    for k := 0 to |code|
      invariant forall x: nat :: (x in r && r[x] == (Loads(code[..k], x), Stores(code[..k], x)))
                                 || (x !in r && Loads(code[..k], x) == 0 && Stores(code[..k], x) == 0)
    {
      assert code[..k + 1][..k] == code[..k];
      match code[k] {
        case Get(x) =>
          var was := if x in r then r[x] else (0, 0);
          r := r[x := (was.0 + 1, was.1)];
        case Set(x) =>
          var was := if x in r then r[x] else (0, 0);
          r := r[x := (was.0, was.1 + 1)];
        case Tee(x) =>
          var was := if x in r then r[x] else (0, 0);
          r := r[x := (was.0, was.1 + 1)];
        case Drop =>
        case Pure(_, _) =>
        case Barrier(_) =>
      }
    }
    assert code[..|code|] == code;
  }

  // ---- the pass ----

  /** The code without the instructions marked removed. */
  function Compact(code: seq<Instr>, removed: seq<bool>): seq<Instr>
    requires |code| == |removed|
  {
    if code == [] then []
    else
      var n := |code| - 1;
      Compact(code[..n], removed[..n]) + if removed[n] then [] else [code[n]]
  }

  lemma {:induction false} CompactSplit(code: seq<Instr>, removed: seq<bool>, k: nat)
    requires |code| == |removed| && k <= |code|
    ensures Compact(code, removed) == Compact(code[..k], removed[..k]) + Compact(code[k..], removed[k..])
    decreases |code|
  {
    if k == |code| {
      assert code[..k] == code && removed[..k] == removed && code[k..] == [];
    } else {
      var n := |code| - 1;
      CompactSplit(code[..n], removed[..n], k);
      assert code[..n][..k] == code[..k] && removed[..n][..k] == removed[..k];
      assert code[..n][k..] == code[k..][..n - k] && removed[..n][k..] == removed[k..][..n - k];
      assert code[k..][n - k] == code[n] && removed[k..][n - k] == removed[n];
    }
  }

  /** The code between two positions, without what was removed. */
  ghost function Between(code: seq<Instr>, removed: seq<bool>, i: nat, j: nat): seq<Instr>
    requires |code| == |removed| && i <= j <= |code|
  {
    Compact(code[i..j], removed[i..j])
  }

  lemma BetweenStep(code: seq<Instr>, removed: seq<bool>, i: nat, j: nat)
    requires |code| == |removed| && i <= j < |code|
    ensures Between(code, removed, i, i) == []
    ensures Between(code, removed, i, j + 1) == Between(code, removed, i, j) + if removed[j] then [] else [code[j]]
  {
    assert code[i..j + 1][..j - i] == code[i..j] && removed[i..j + 1][..j - i] == removed[i..j];
  }

  /** A load of x at `next` that the value stored at `index` can wait for. */
  ghost predicate Reachable(code: seq<Instr>, removed: seq<bool>, index: nat, x: nat, next: nat)
    requires |code| == |removed|
  {
    && index < next < |code| && !removed[next] && code[next] == Get(x)
    && var mid := Between(code, removed, index + 1, next);
       Plain(mid) && Untouched(mid, x) && Height(mid, 0) == Some(0)
  }

  /** No load before position `end` is reachable. */
  ghost predicate NoneReachable(code: seq<Instr>, removed: seq<bool>, index: nat, x: nat, end: nat)
    requires |code| == |removed|
  {
    forall n :: index < n < end && n < |code| ==> !Reachable(code, removed, index, x, n)
  }

  lemma {:induction false} HeightPrefix(a: seq<Instr>, b: seq<Instr>, h: nat)
    requires Height(a + b, h).Some?
    ensures Height(a, h).Some?
  {
    if a != [] {
      assert (a + b)[1..] == a[1..] + b;
      var e := Effect(a[0]).value;
      HeightPrefix(a[1..], b, h - e.0 + e.1);
    }
  }

  /** Past an instruction that uses x, or that cannot run above the kept value, nothing is reachable. */
  lemma Blocked(code: seq<Instr>, removed: seq<bool>, index: nat, x: nat, next: nat)
    requires |code| == |removed| && index < next < |code| && NoneReachable(code, removed, index, x, next)
    requires !Reachable(code, removed, index, x, next)
    requires var m := Between(code, removed, index + 1, next + 1);
             !Untouched(m, x) || Height(m, 0).None?
    ensures forall end :: NoneReachable(code, removed, index, x, end)
  {
    hide Compact, Height, Untouched, Plain;
    var m := Between(code, removed, index + 1, next + 1);
    forall n | next < n < |code|
      ensures !Reachable(code, removed, index, x, n)
    {
      var longer := Between(code, removed, index + 1, n);
      var rest := Between(code, removed, next + 1, n);
      assert longer == m + rest by { BetweenSplit(code, removed, index + 1, next + 1, n); }
      if Height(longer, 0).Some? {
        HeightPrefix(m, rest, 0);
      }
      if Untouched(longer, x) {
        UntouchedPrefix(m, rest, x);
      }
    }
  }

  lemma UntouchedPrefix(a: seq<Instr>, b: seq<Instr>, x: nat)
    requires Untouched(a + b, x)
    ensures Untouched(a, x)
  {
    assert forall k :: 0 <= k < |a| ==> (a + b)[k] == a[k];
  }

  lemma BetweenSplit(code: seq<Instr>, removed: seq<bool>, i: nat, j: nat, k: nat)
    requires |code| == |removed| && i <= j <= k <= |code|
    ensures Between(code, removed, i, k) == Between(code, removed, i, j) + Between(code, removed, j, k)
  {
    CompactSplit(code[i..k], removed[i..k], j - i);
    assert code[i..k][..j - i] == code[i..j] && removed[i..k][..j - i] == removed[i..j];
    assert code[i..k][j - i..] == code[j..k] && removed[i..k][j - i..] == removed[j..k];
  }

  lemma BetweenEmpty(code: seq<Instr>, removed: seq<bool>, index: nat, x: nat)
    requires |code| == |removed| && index < |code|
    ensures Between(code, removed, index + 1, index + 1) == []
    ensures Plain([]) && Untouched([], x) && Height([], 0) == Some(0)
  {
  }

  lemma TouchSnoc(code: seq<Instr>, i: Instr, x: nat)
    requires Untouched(code, x) && Plain(code)
    ensures Untouched(code + [i], x) <==> !Touches(i, x)
    ensures Plain(code + [i]) <==> !i.Barrier?
  {
    assert (code + [i])[|code|] == i;
  }

  lemma ReachableAt(code: seq<Instr>, removed: seq<bool>, index: nat, x: nat, next: nat)
    requires |code| == |removed| && index < next < |code|
    requires var mid := Between(code, removed, index + 1, next); Plain(mid) && Untouched(mid, x)
    ensures Reachable(code, removed, index, x, next) <==>
              !removed[next] && code[next] == Get(x) && Height(Between(code, removed, index + 1, next), 0) == Some(0)
  {
  }

  /** The bounded scan from a store of x. */
  method Scan(code: seq<Instr>, removed: seq<bool>, index: nat, x: nat) returns (r: Option<nat>)
    requires |code| == |removed| && index < |code|
    ensures r.Some? ==> r.value <= index + STACK_WINDOW && Reachable(code, removed, index, x, r.value)
    ensures r.None? ==> NoneReachable(code, removed, index, x, index + STACK_WINDOW + 1)
  {
    hide Compact, Between, Untouched, Plain, Reachable;
    BetweenEmpty(code, removed, index, x);
    hide Height;
    var height := 0;
    var end := if |code| < index + STACK_WINDOW + 1 then |code| else index + STACK_WINDOW + 1;
    for next := index + 1 to end
      invariant Plain(Between(code, removed, index + 1, next)) && Untouched(Between(code, removed, index + 1, next), x)
      invariant Height(Between(code, removed, index + 1, next), 0) == Some(height)
      invariant NoneReachable(code, removed, index, x, next)
    {
      BetweenStep(code, removed, index + 1, next);
      ghost var mid := Between(code, removed, index + 1, next);
      assert mid + [] == mid;
      HeightSnoc(mid, code[next], 0);
      TouchSnoc(mid, code[next], x);
      ReachableAt(code, removed, index, x, next);
      if !removed[next] {
        if code[next] == Get(x) {
          if height == 0 {
            return Some(next);
          }
          Blocked(code, removed, index, x, next);
          return None;
        }
        if code[next] == Set(x) || code[next] == Tee(x) {
          Blocked(code, removed, index, x, next);
          return None;
        }
        var e := Effect(code[next]);
        if e.None? || e.value.0 > height {
          Blocked(code, removed, index, x, next);
          return None;
        }
        height := height - e.value.0 + e.value.1;
      }
    }
    return None;
  }

  function Kept(code: seq<Instr>, removed: seq<bool>, k: nat): seq<Instr>
    requires |code| == |removed| && k < |code|
  {
    if removed[k] then [] else [code[k]]
  }

  lemma Slices<T>(s: seq<T>, i: nat, j: nat)
    requires i <= j < |s|
    ensures s[i..][..j + 1 - i] == s[i..j + 1] && s[i..][j + 1 - i..] == s[j + 1..]
    ensures s[i..|s|] == s[i..] && s[j + 1..|s|] == s[j + 1..] && s[0..|s|] == s
  {
  }

  lemma CompactAround(code: seq<Instr>, removed: seq<bool>, i: nat, j: nat)
    requires |code| == |removed| && i <= j < |code|
    ensures Between(code, removed, i, |code|)
            == Between(code, removed, i, j) + Kept(code, removed, j) + Between(code, removed, j + 1, |code|)
    ensures Compact(code, removed) == Between(code, removed, 0, |code|)
  {
    hide Compact;
    BetweenStep(code, removed, i, j);
    CompactSplit(code[i..], removed[i..], j + 1 - i);
    Slices(code, i, j);
    Slices(removed, i, j);
  }

  lemma CompactParts(code: seq<Instr>, removed: seq<bool>, i: nat, j: nat)
    requires |code| == |removed| && i < j < |code|
    ensures Compact(code, removed)
            == Between(code, removed, 0, i) + Kept(code, removed, i) + Between(code, removed, i + 1, j)
               + Kept(code, removed, j) + Between(code, removed, j + 1, |code|)
  {
    hide Compact, Between, Kept;
    CompactAround(code, removed, 0, i);
    CompactAround(code, removed, i + 1, j);
  }

  /** Positions outside [i, j) do not matter between them. */
  lemma BetweenOnly(code: seq<Instr>, removed: seq<bool>, code': seq<Instr>, removed': seq<bool>, i: nat, j: nat)
    requires |code| == |removed| == |code'| == |removed'| && i <= j <= |code|
    requires forall k :: i <= k < j ==> code'[k] == code[k] && removed'[k] == removed[k]
    ensures Between(code', removed', i, j) == Between(code, removed, i, j)
  {
    assert code'[i..j] == code[i..j] && removed'[i..j] == removed[i..j];
  }

  /** The store, the code between and the load, in the code that is left. */
  lemma MarkedBefore(code: seq<Instr>, removed: seq<bool>, index: nat, x: nat, next: nat)
    requires |code| == |removed| && index < |code| && !removed[index] && code[index] == Set(x)
    requires Reachable(code, removed, index, x, next)
    ensures Pattern(Compact(code, removed), Between(code, removed, 0, index), x,
                    Between(code, removed, index + 1, next), Between(code, removed, next + 1, |code|))
  {
    hide Compact, Between, Plain, Untouched, Height;
    CompactParts(code, removed, index, next);
    var pre, mid, post := Between(code, removed, 0, index), Between(code, removed, index + 1, next),
                          Between(code, removed, next + 1, |code|);
    assert pre + [Set(x)] + mid + [Get(x)] + post == pre + ([Set(x)] + mid + [Get(x)]) + post;
  }

  lemma MarkedTee(code: seq<Instr>, removed: seq<bool>, index: nat, x: nat, next: nat)
    requires |code| == |removed| && index < next < |code| && !removed[index]
    ensures Compact(code[index := Tee(x)], removed[next := true])
            == Between(code, removed, 0, index) + ([Tee(x)] + Between(code, removed, index + 1, next))
               + Between(code, removed, next + 1, |code|)
  {
    hide Compact, Between;
    var c, r := code[index := Tee(x)], removed[next := true];
    CompactParts(c, r, index, next);
    BetweenOnly(code, removed, c, r, 0, index);
    BetweenOnly(code, removed, c, r, index + 1, next);
    BetweenOnly(code, removed, c, r, next + 1, |code|);
    Regroup(Between(c, r, 0, index), [Tee(x)], Between(c, r, index + 1, next), Between(c, r, next + 1, |code|));
  }

  lemma MarkedDrop(code: seq<Instr>, removed: seq<bool>, index: nat, next: nat)
    requires |code| == |removed| && index < next < |code|
    ensures Compact(code, removed[next := true][index := true])
            == Between(code, removed, 0, index) + Between(code, removed, index + 1, next)
               + Between(code, removed, next + 1, |code|)
  {
    hide Compact, Between;
    var q := removed[next := true][index := true];
    CompactParts(code, q, index, next);
    BetweenOnly(code, removed, code, q, 0, index);
    BetweenOnly(code, removed, code, q, index + 1, next);
    BetweenOnly(code, removed, code, q, next + 1, |code|);
    Regroup(Between(code, q, 0, index), [], Between(code, q, index + 1, next), Between(code, q, next + 1, |code|));
  }

  lemma Regroup(pre: seq<Instr>, one: seq<Instr>, mid: seq<Instr>, post: seq<Instr>)
    ensures pre + one + mid + [] + post == pre + (one + mid) + post
    ensures one == [] ==> pre + one + mid + [] + post == pre + mid + post
  {
  }

  /** The progress of the pass: what is left simulates the original, uses no local more often, and
      does not mention those given up. */
  ghost predicate Sound(sem: Meaning, original: seq<Instr>, now: seq<Instr>, dead: set<nat>) {
    && Simulates(sem, original, now, dead) && Fewer(now, original)
    && forall x :: x in dead ==>
         Loads(original, x) == 1 && Stores(original, x) == 1 && Loads(now, x) == 0 && Stores(now, x) == 0
  }

  lemma TeeSound(sem: Meaning, original: seq<Instr>, now: seq<Instr>, dead: set<nat>,
                 pre: seq<Instr>, x: nat, mid: seq<Instr>, post: seq<Instr>)
    requires Sound(sem, original, now, dead) && Pattern(now, pre, x, mid, post)
    ensures Sound(sem, original, pre + ([Tee(x)] + mid) + post, dead)
  {
    hide Simulates, Pattern, Loads, Stores;
    TeeRewrite(sem, now, pre, x, mid, post);
    SimulatesThrough(sem, original, now, pre + ([Tee(x)] + mid) + post, dead, {});
    assert dead + {} == dead;
    forall y: nat
      ensures Loads(pre + ([Tee(x)] + mid) + post, y) <= Loads(now, y)
      ensures Stores(pre + ([Tee(x)] + mid) + post, y) == Stores(now, y)
    {
      PatternCounts(now, pre, x, mid, post, y);
      TeeCounts(pre, x, mid, post, y);
    }
  }

  lemma DropSound(sem: Meaning, original: seq<Instr>, now: seq<Instr>, dead: set<nat>,
                  pre: seq<Instr>, x: nat, mid: seq<Instr>, post: seq<Instr>)
    requires Sound(sem, original, now, dead) && Pattern(now, pre, x, mid, post)
    requires Loads(original, x) == 1 && Stores(original, x) == 1
    ensures Sound(sem, original, pre + mid + post, dead + {x})
  {
    hide Simulates, Pattern, Loads, Stores;
    PatternCounts(now, pre, x, mid, post, x);
    NoneTouched(pre, x);
    NoneTouched(post, x);
    DropRewrite(sem, now, pre, x, mid, post);
    SimulatesThrough(sem, original, now, pre + mid + post, dead, {x});
    forall y: nat
      ensures Loads(pre + mid + post, y) <= Loads(now, y) && Stores(pre + mid + post, y) <= Stores(now, y)
    {
      PatternCounts(now, pre, x, mid, post, y);
      PartCounts(pre, mid, post, y);
    }
    PartCounts(pre, mid, post, x);
  }

  lemma SoundSelf(sem: Meaning, code: seq<Instr>)
    ensures Sound(sem, code, code, {})
  {
    hide Follows, Segments, Barriers;
    SteadyEmpty(sem, code);
  }

  lemma {:induction false} CompactAll(code: seq<Instr>, removed: seq<bool>)
    requires |code| == |removed| && forall k :: 0 <= k < |removed| ==> !removed[k]
    ensures Compact(code, removed) == code
  {
    if code != [] {
      var n := |code| - 1;
      CompactAll(code[..n], removed[..n]);
      assert code == code[..n] + [code[n]];
    }
  }

  // ---- which pairs the pass rewrites ----

  /** A store and the load its value waits for, by their places in the original code. */
  datatype Pair = Pair(store: nat, load: nat)

  /** One place loads x, one stores it, and no other touches it. */
  ghost predicate SingleUse(original: seq<Instr>, x: nat) {
    exists i, j :: 0 <= i < |original| && 0 <= j < |original| && OnlyUses(original, x, i, j)
  }

  ghost predicate OnlyUses(original: seq<Instr>, x: nat, i: nat, j: nat)
    requires i < |original| && j < |original|
  {
    && original[i] == Get(x) && (original[j] == Set(x) || original[j] == Tee(x))
    && forall k :: 0 <= k < |original| && Touches(original[k], x) ==> k == i || k == j
  }

  ghost predicate IsStore(pairs: seq<Pair>, k: nat) {
    exists n :: 0 <= n < |pairs| && pairs[n].store == k
  }

  ghost predicate IsLoad(pairs: seq<Pair>, k: nat) {
    exists n :: 0 <= n < |pairs| && pairs[n].load == k
  }

  /** The store of a pair goes when it has the only uses of its local; otherwise it keeps the value on the stack. */
  ghost predicate Dropped(original: seq<Instr>, pairs: seq<Pair>, k: nat)
    requires k < |original|
  {
    IsStore(pairs, k) && original[k].Set? && SingleUse(original, original[k].x)
  }

  ghost predicate StoredBy(original: seq<Instr>, pairs: seq<Pair>, x: nat) {
    exists n :: 0 <= n < |pairs| && pairs[n].store < |original| && original[pairs[n].store] == Set(x)
  }

  ghost function CodeAfter(original: seq<Instr>, pairs: seq<Pair>): (r: seq<Instr>)
    ensures |r| == |original|
  {
    seq(|original|, k requires 0 <= k < |original| =>
      if IsStore(pairs, k) && original[k].Set? && !Dropped(original, pairs, k) then Tee(original[k].x) else original[k])
  }

  ghost function RemovedAfter(original: seq<Instr>, pairs: seq<Pair>): (r: seq<bool>)
    ensures |r| == |original|
  {
    seq(|original|, k requires 0 <= k < |original| => IsLoad(pairs, k) || Dropped(original, pairs, k))
  }

  /** The pairs of the stores before place k. */
  ghost function Earlier(pairs: seq<Pair>, k: nat): seq<Pair> {
    if pairs == [] || pairs[|pairs| - 1].store < k then pairs else Earlier(pairs[..|pairs| - 1], k)
  }

  /** When the store's turn came its load was reachable within the window. */
  ghost predicate Taken(original: seq<Instr>, pairs: seq<Pair>, p: Pair) {
    var before := Earlier(pairs, p.store);
    && p.store < |original| && original[p.store].Set? && p.load <= p.store + STACK_WINDOW
    && Reachable(CodeAfter(original, before), RemovedAfter(original, before), p.store, original[p.store].x, p.load)
  }

  /** When the store's turn came no load within the window was. */
  ghost predicate Passed(original: seq<Instr>, pairs: seq<Pair>, k: nat)
    requires k < |original| && original[k].Set?
  {
    var before := Earlier(pairs, k);
    NoneReachable(CodeAfter(original, before), RemovedAfter(original, before), k, original[k].x, k + STACK_WINDOW + 1)
  }

  /** The stores before place `end` had their turns, in order. */
  ghost predicate Turns(original: seq<Instr>, pairs: seq<Pair>, end: nat) {
    && (forall i, j :: 0 <= i < j < |pairs| ==> pairs[i].store < pairs[j].store)
    && (forall n :: 0 <= n < |pairs| ==> pairs[n].store < end && Taken(original, pairs, pairs[n]))
    && forall k :: 0 <= k < end && k < |original| && original[k].Set? && !IsStore(pairs, k) ==>
         Passed(original, pairs, k)
  }

  lemma EarlierMore(pairs: seq<Pair>, p: Pair, k: nat)
    requires k <= p.store
    ensures Earlier(pairs + [p], k) == Earlier(pairs, k)
  {
    assert (pairs + [p])[..|pairs|] == pairs;
  }

  lemma StoreMore(pairs: seq<Pair>, p: Pair, k: nat)
    ensures IsStore(pairs + [p], k) <==> IsStore(pairs, k) || k == p.store
    ensures IsLoad(pairs + [p], k) <==> IsLoad(pairs, k) || k == p.load
  {
    var all := pairs + [p];
    assert all[|pairs|] == p;
    assert forall n :: 0 <= n < |pairs| ==> all[n] == pairs[n];
  }

  lemma TurnTaken(original: seq<Instr>, pairs: seq<Pair>, p: Pair)
    requires Turns(original, pairs, p.store) && Taken(original, pairs, p)
    ensures Turns(original, pairs + [p], p.store + 1)
  {
    hide Reachable, Earlier, NoneReachable, IsStore;
    var all := pairs + [p];
    forall n | 0 <= n < |all| ensures all[n].store < p.store + 1 && Taken(original, all, all[n]) {
      if n < |pairs| { assert Taken(original, pairs, pairs[n]); }
      EarlierMore(pairs, p, all[n].store);
    }
    forall k | 0 <= k < p.store + 1 && k < |original| && original[k].Set? && !IsStore(all, k)
      ensures Passed(original, all, k)
    {
      StoreMore(pairs, p, k);
      EarlierMore(pairs, p, k);
    }
  }

  lemma TurnPassed(original: seq<Instr>, pairs: seq<Pair>, k: nat)
    requires Turns(original, pairs, k) && k < |original| && (original[k].Set? ==> Passed(original, pairs, k))
    ensures Turns(original, pairs, k + 1)
  {
    hide Taken, Passed;
  }

  /** At the turn of place k all pairs are earlier ones. */
  lemma AllEarlier(original: seq<Instr>, pairs: seq<Pair>, k: nat)
    requires Turns(original, pairs, k)
    ensures Earlier(pairs, k) == pairs
  {
    hide Taken, Passed;
  }

  lemma StoredMore(original: seq<Instr>, pairs: seq<Pair>, p: Pair, x: nat)
    requires p.store < |original| && original[p.store] == Set(x)
    ensures forall y :: StoredBy(original, pairs + [p], y) <==> StoredBy(original, pairs, y) || y == x
  {
    var all := pairs + [p];
    assert all[|pairs|] == p;
    assert forall n :: 0 <= n < |pairs| ==> all[n] == pairs[n];
  }

  lemma LoadStays(original: seq<Instr>, pairs: seq<Pair>, p: Pair)
    requires Taken(original, pairs, p)
    ensures p.load < |original| && original[p.load].Get?
  {
    hide Between, Earlier, Dropped, IsStore, RemovedAfter, Plain, Untouched, Height;
  }

  /** Only loads are taken away before their turn. */
  lemma SetNotRemoved(original: seq<Instr>, pairs: seq<Pair>, k: nat)
    requires Turns(original, pairs, k) && k < |original|
    ensures original[k].Set? ==> !RemovedAfter(original, pairs)[k] && CodeAfter(original, pairs)[k] == original[k]
  {
    hide Taken, SingleUse, Passed;
    forall n | 0 <= n < |pairs| ensures pairs[n].load < |original| && original[pairs[n].load].Get? {
      LoadStays(original, pairs, pairs[n]);
    }
  }

  lemma NoPairs(original: seq<Instr>)
    ensures Turns(original, [], 0) && CodeAfter(original, []) == original
    ensures RemovedAfter(original, []) == seq(|original|, _ => false)
    ensures forall x :: !StoredBy(original, [], x)
  {
    hide SingleUse;
  }

  /** One more pair. */
  lemma AfterMore(original: seq<Instr>, pairs: seq<Pair>, p: Pair)
    requires p.store < |original| && p.load < |original| && p.store != p.load && original[p.store].Set?
    ensures var x := original[p.store].x;
            var code, removed := CodeAfter(original, pairs), RemovedAfter(original, pairs)[p.load := true];
            && CodeAfter(original, pairs + [p])
               == (if SingleUse(original, x) then code[p.store := original[p.store]] else code[p.store := Tee(x)])
            && RemovedAfter(original, pairs + [p])
               == (if SingleUse(original, x) then removed[p.store := true] else removed)
  {
    hide SingleUse, IsStore, IsLoad;
    var x := original[p.store].x;
    forall k | 0 <= k < |original|
      ensures IsStore(pairs + [p], k) <==> IsStore(pairs, k) || k == p.store
      ensures IsLoad(pairs + [p], k) <==> IsLoad(pairs, k) || k == p.load
    {
      StoreMore(pairs, p, k);
    }
  }

  // ---- single uses by counting ----

  lemma {:induction false} NoLoads(code: seq<Instr>, x: nat)
    ensures Loads(code, x) == 0 <==> Get(x) !in code
  {
    if code != [] {
      var n := |code| - 1;
      NoLoads(code[..n], x);
      assert code == code[..n] + [code[n]];
    }
  }

  lemma {:induction false} NoStores(code: seq<Instr>, x: nat)
    ensures Stores(code, x) == 0 <==> Set(x) !in code && Tee(x) !in code
  {
    if code != [] {
      var n := |code| - 1;
      NoStores(code[..n], x);
      assert code == code[..n] + [code[n]];
    }
  }

  lemma LoadsAround(code: seq<Instr>, x: nat, i: nat)
    requires i < |code| && code[i] == Get(x)
    ensures Loads(code, x) == 1 <==> forall k :: 0 <= k < |code| && code[k] == Get(x) ==> k == i
  {
    hide Loads, Stores;
    var pre, post := code[..i], code[i + 1..];
    assert code == pre + [code[i]] + post;
    PartCounts(pre, [code[i]], post, x);
    CountsOne(code[i], x);
    NoLoads(pre, x);
    NoLoads(post, x);
    assert forall k :: 0 <= k < i ==> pre[k] == code[k];
    assert forall k :: i < k < |code| ==> code[k] == post[k - (i + 1)];
    assert forall k :: 0 <= k < |post| ==> post[k] == code[i + 1 + k];
  }

  lemma StoresAround(code: seq<Instr>, x: nat, j: nat)
    requires j < |code| && (code[j] == Set(x) || code[j] == Tee(x))
    ensures Stores(code, x) == 1 <==>
              forall k :: 0 <= k < |code| && (code[k] == Set(x) || code[k] == Tee(x)) ==> k == j
  {
    hide Loads, Stores;
    var pre, post := code[..j], code[j + 1..];
    assert code == pre + [code[j]] + post;
    PartCounts(pre, [code[j]], post, x);
    CountsOne(code[j], x);
    NoStores(pre, x);
    NoStores(post, x);
    assert forall k :: 0 <= k < j ==> pre[k] == code[k];
    assert forall k :: j < k < |code| ==> code[k] == post[k - (j + 1)];
    assert forall k :: 0 <= k < |post| ==> post[k] == code[j + 1 + k];
  }

  lemma SingleCounts(code: seq<Instr>, x: nat)
    ensures SingleUse(code, x) <==> Loads(code, x) == 1 && Stores(code, x) == 1
  {
    hide Loads, Stores;
    if i, j :| 0 <= i < |code| && 0 <= j < |code| && OnlyUses(code, x, i, j) {
      LoadsAround(code, x, i);
      StoresAround(code, x, j);
    }
    if Loads(code, x) == 1 && Stores(code, x) == 1 {
      NoLoads(code, x);
      NoStores(code, x);
      var i :| 0 <= i < |code| && code[i] == Get(x);
      var j :| 0 <= j < |code| && (code[j] == Set(x) || code[j] == Tee(x));
      LoadsAround(code, x, i);
      StoresAround(code, x, j);
      assert OnlyUses(code, x, i, j);
    }
  }

  /** The whole pass. Whatever the pure instructions compute and the barriers do, the result gives
      the same runs; the locals given up had one store and one load, and no longer occur. The pairs say what
      was done: each store in turn takes the load it can, in the code the earlier pairs leave. */
  method StackifyLocals(original: seq<Instr>, ghost sem: Meaning)
    returns (r: seq<Instr>, ghost dead: set<nat>, ghost pairs: seq<Pair>)
    ensures Simulates(sem, original, r, dead) && Fewer(r, original)
    ensures forall x :: x in dead ==> Loads(original, x) == 1 && Stores(original, x) == 1 && Untouched(r, x)
    ensures Turns(original, pairs, |original|)
    ensures r == Compact(CodeAfter(original, pairs), RemovedAfter(original, pairs))
    ensures forall x :: x in dead <==> SingleUse(original, x) && StoredBy(original, pairs, x)
  {
    hide Simulates, Reachable, Loads, Stores, Compact, Fewer, Turns, CodeAfter, RemovedAfter, SingleUse, StoredBy,
         NoneReachable, Between;
    var accesses := Accesses(original);
    var code := original;
    var removed := seq(|code|, _ => false);
    dead, pairs := {}, [];
    CompactAll(code, removed);
    SoundSelf(sem, original);
    NoPairs(original);
    for index := 0 to |code|
      invariant |code| == |removed| == |original|
      invariant forall k :: index <= k < |code| ==> code[k] == original[k]
      invariant Sound(sem, original, Compact(code, removed), dead)
      invariant code == CodeAfter(original, pairs) && removed == RemovedAfter(original, pairs)
      invariant Turns(original, pairs, index)
      invariant forall x :: x in dead <==> SingleUse(original, x) && StoredBy(original, pairs, x)
    {
      AllEarlier(original, pairs, index);
      if !removed[index] && code[index].Set? {
        var x := code[index].x;
        var next := Scan(code, removed, index, x);
        if next.Some? {
          NextInside(code, removed, index, x, next.value);
          ghost var now := Compact(code, removed);
          ghost var pre, mid, post := Between(code, removed, 0, index), Between(code, removed, index + 1, next.value),
                                      Between(code, removed, next.value + 1, |code|);
          MarkedBefore(code, removed, index, x, next.value);
          MarkedTee(code, removed, index, x, next.value);
          MarkedDrop(code, removed, index, next.value);
          ghost var p := Pair(index, next.value);
          TurnTaken(original, pairs, p);
          AfterMore(original, pairs, p);
          SingleCounts(original, x);
          StoredMore(original, pairs, p, x);
          pairs := pairs + [p];
          removed := removed[next.value := true];
          if x in accesses && accesses[x] == (1, 1) {
            DropSound(sem, original, now, dead, pre, x, mid, post);
            removed := removed[index := true];
            dead := dead + {x};
          } else {
            TeeSound(sem, original, now, dead, pre, x, mid, post);
            code := code[index := Tee(x)];
          }
        } else {
          TurnPassed(original, pairs, index);
        }
      } else {
        SetNotRemoved(original, pairs, index);
        TurnPassed(original, pairs, index);
      }
    }
    r := Compact(code, removed);
    forall x | x in dead
      ensures Untouched(r, x)
    {
      NoneTouched(r, x);
    }
  }

  lemma NextInside(code: seq<Instr>, removed: seq<bool>, index: nat, x: nat, next: nat)
    requires |code| == |removed| && Reachable(code, removed, index, x, next)
    ensures index < next < |code|
  {
  }
}
