/** When the trap hoist ends: exactly when it never meets a stuck stretch of trap blocks. */
module TrapEnds {
  import opened Cfg
  import opened TrapHoist
  import opened Sequences
  import opened Wrappers

  predicate Traps(f: Func, ts: seq<Block>) {
    forall k :: 0 <= k < |ts| ==> ts[k] < |f| && f[ts[k]].Unreachable?
  }

  /** Nothing in `before` is a place for u to go to. */
  ghost predicate Stays(f: Func, before: seq<Block>, u: Block)
    requires ValidTargets(f) && Within(f, before)
  {
    forall idx :: 0 <= idx < |before| ==> !Joins(f, before[..idx], u, before[idx])
  }

  /** A block of the stretch is. */
  ghost predicate Swaps(f: Func, before: seq<Block>, stretch: seq<Block>, u: Block)
    requires ValidTargets(f) && Within(f, before)
  {
    exists w :: w in stretch && Joins(f, before, u, w)
  }

  /** Block u goes back into the stretch. */
  ghost predicate Returns(f: Func, before: seq<Block>, stretch: seq<Block>, u: Block)
    requires ValidTargets(f) && Within(f, before)
  {
    Stays(f, before, u) && Swaps(f, before, stretch, u)
  }

  /** A stretch of trap blocks, up to the cursor, each of which goes back into it. */
  ghost predicate Stuck(f: Func, before: seq<Block>, stretch: seq<Block>)
    requires ValidTargets(f) && Within(f, before)
  {
    stretch != [] && Traps(f, stretch) && forall k :: 0 <= k < |stretch| ==> Returns(f, before, stretch, stretch[k])
  }

  // ---- one turn at the end of a stretch ----

  lemma JoinsPastTraps(f: Func, before: seq<Block>, ts: seq<Block>, u: Block, w: Block)
    requires ValidTargets(f) && Within(f, before) && Traps(f, ts)
    ensures Within(f, before + ts)
    ensures Joins(f, before + ts, u, w) <==> Joins(f, before, u, w)
  {
    hide PredCount, Sibling, ValidTargets;
    var all := before + ts;
    forall k | 0 <= k < |ts|
      ensures all[|before| + k] == ts[k] && !Sibling(f, ts[k], u, w)
    {
      TrapHasNone(f, ts[k], u, w);
    }
    assert forall p :: 0 <= p < |before| ==> all[p] == before[p];
    assert forall p :: |before| <= p < |all| ==> !Sibling(f, all[p], u, w);
  }

  lemma TrapHasNone(f: Func, t: Block, u: Block, w: Block)
    requires ValidTargets(f) && t < |f| && f[t].Unreachable?
    ensures !Sibling(f, t, u, w)
  {
    hide Search;
  }

  /** The last block of the stretch put back at position j of it. */
  function Rotated(ts: seq<Block>, j: nat): (r: seq<Block>)
    requires j < |ts|
    ensures |r| == |ts|
  {
    ts[..j] + [ts[|ts| - 1]] + ts[j..|ts| - 1]
  }

  lemma RotatedSame(ts: seq<Block>, j: nat)
    requires j < |ts|
    ensures multiset(Rotated(ts, j)) == multiset(ts)
  {
    assert ts == ts[..j] + ts[j..|ts| - 1] + [ts[|ts| - 1]];
  }

  lemma SameMembers(a: seq<Block>, b: seq<Block>)
    requires multiset(a) == multiset(b)
    ensures forall x :: x in a <==> x in b
  {
    assert forall x :: x in a <==> x in multiset(a);
    assert forall x :: x in b <==> x in multiset(b);
  }

  lemma SameTraps(f: Func, a: seq<Block>, b: seq<Block>)
    requires multiset(a) == multiset(b) && Traps(f, a)
    ensures Traps(f, b)
  {
    SameMembers(a, b);
    forall k | 0 <= k < |b|
      ensures b[k] < |f| && f[b[k]].Unreachable?
    {
      assert b[k] in a;
    }
  }

  ghost function Place(before: seq<Block>, stretch: seq<Block>, rest: seq<Block>): State
    requires stretch != []
  {
    State(before + stretch + rest, |before| + |stretch| - 1)
  }

  lemma PlaceWithin(f: Func, before: seq<Block>, stretch: seq<Block>, rest: seq<Block>)
    requires stretch != [] && Within(f, before) && Traps(f, stretch) && Within(f, rest)
    ensures Within(f, Place(before, stretch, rest).order)
  {
  }

  /** What the search for a place sees. */
  lemma SearchSees(f: Func, before: seq<Block>, stretch: seq<Block>, rest: seq<Block>, idx: nat)
    requires ValidTargets(f) && stretch != [] && Within(f, before) && Traps(f, stretch) && Within(f, rest)
    requires idx < |before| + |stretch|
    ensures Within(f, Place(before, stretch, rest).order)
    ensures var st, u := Place(before, stretch, rest), stretch[|stretch| - 1];
            JoinAt(f, st.order, st.cursor, idx) <==> Sees(f, before, stretch, u, idx)
  {
    hide Joins, ValidTargets;
    PlaceWithin(f, before, stretch, rest);
    var st, u := Place(before, stretch, rest), stretch[|stretch| - 1];
    assert st.order[st.cursor] == u;
    if idx < |before| {
      assert st.order[..idx] == before[..idx] && st.order[idx] == before[idx];
    } else {
      var j := idx - |before|;
      assert st.order[..idx] == before + stretch[..j] && st.order[idx] == stretch[j];
      JoinsPastTraps(f, before, stretch[..j], u, stretch[j]);
    }
  }

  /** The three things a turn does at the end of a stretch. */
  lemma TurnCases(f: Func, before: seq<Block>, stretch: seq<Block>, rest: seq<Block>)
    requires ValidTargets(f) && stretch != [] && Within(f, before) && Traps(f, stretch) && Within(f, rest)
    ensures Within(f, Place(before, stretch, rest).order)
    ensures var st, u := Place(before, stretch, rest), stretch[|stretch| - 1];
            var c := Candidate(f, st.order, st.cursor, 0);
            && st.cursor == |before| + |stretch| - 1 < |st.order| && f[st.order[st.cursor]].Unreachable?
            && (!Stays(f, before, u) <==> c.Some? && c.value < |before|)
            && (Returns(f, before, stretch, u) <==> c.Some? && |before| <= c.value)
            && (c.Some? ==> c.value < st.cursor)
            && (c.Some? && |before| <= c.value ==> Joins(f, before, u, stretch[c.value - |before|]))
  {
    hide Joins, JoinAt, ValidTargets, Candidate;
    PlaceWithin(f, before, stretch, rest);
    var st, u := Place(before, stretch, rest), stretch[|stretch| - 1];
    assert st.order[st.cursor] == u;
    hide Within, Traps, Place;
    var c := Candidate(f, st.order, st.cursor, 0);
    CandidateFirst(f, st.order, st.cursor, 0);
    forall idx: nat | idx < |before| + |stretch|
      ensures JoinAt(f, st.order, st.cursor, idx) <==> Sees(f, before, stretch, u, idx)
    {
      SearchSees(f, before, stretch, rest, idx);
    }
    SeesAll(f, before, stretch);
    if c.Some? {
      assert Sees(f, before, stretch, u, c.value);
    }
  }

  /** A place for u at position idx of what comes before and the stretch. */
  ghost predicate Sees(f: Func, before: seq<Block>, stretch: seq<Block>, u: Block, idx: nat)
    requires ValidTargets(f) && Within(f, before) && idx < |before| + |stretch|
  {
    if idx < |before| then Joins(f, before[..idx], u, before[idx]) else Joins(f, before, u, stretch[idx - |before|])
  }

  lemma SeesAll(f: Func, before: seq<Block>, stretch: seq<Block>)
    requires ValidTargets(f) && Within(f, before) && stretch != []
    ensures var u, n := stretch[|stretch| - 1], |before| + |stretch|;
            && (Stays(f, before, u) <==> forall idx: nat :: idx < |before| ==> !Sees(f, before, stretch, u, idx))
            && (Swaps(f, before, stretch, u) <==>
                exists idx: nat :: |before| <= idx < n && Sees(f, before, stretch, u, idx))
            && !Sees(f, before, stretch, u, n - 1)
  {
    hide Joins, ValidTargets, Within, Stays, Swaps, Sees;
    var u := stretch[|stretch| - 1];
    StaysSees(f, before, stretch, u);
    SwapsSees(f, before, stretch, u);
    NotSelf(f, before, u);
    SeesLast(f, before, stretch);
  }

  lemma StaysSees(f: Func, before: seq<Block>, stretch: seq<Block>, u: Block)
    requires ValidTargets(f) && Within(f, before)
    ensures Stays(f, before, u) <==> forall idx: nat :: idx < |before| ==> !Sees(f, before, stretch, u, idx)
  {
    hide Joins, ValidTargets;
    forall idx: nat | idx < |before|
      ensures Sees(f, before, stretch, u, idx) <==> Joins(f, before[..idx], u, before[idx])
    {
    }
  }

  lemma SwapsSees(f: Func, before: seq<Block>, stretch: seq<Block>, u: Block)
    requires ValidTargets(f) && Within(f, before)
    ensures Swaps(f, before, stretch, u) <==>
            exists idx: nat :: |before| <= idx < |before| + |stretch| && Sees(f, before, stretch, u, idx)
  {
    hide Joins, ValidTargets;
    if w :| w in stretch && Joins(f, before, u, w) {
      var j :| 0 <= j < |stretch| && stretch[j] == w;
      assert Sees(f, before, stretch, u, |before| + j);
    }
    if idx: nat :| |before| <= idx < |before| + |stretch| && Sees(f, before, stretch, u, idx) {
      assert stretch[idx - |before|] in stretch;
    }
  }

  lemma SeesLast(f: Func, before: seq<Block>, stretch: seq<Block>)
    requires ValidTargets(f) && Within(f, before) && stretch != []
    requires !Joins(f, before, stretch[|stretch| - 1], stretch[|stretch| - 1])
    ensures !Sees(f, before, stretch, stretch[|stretch| - 1], |before| + |stretch| - 1)
  {
    hide Joins, ValidTargets;
  }

  lemma NotSelf(f: Func, before: seq<Block>, u: Block)
    requires ValidTargets(f) && Within(f, before)
    ensures !Joins(f, before, u, u)
  {
  }

  /** A move inside the stretch. */
  lemma TurnReturns(f: Func, before: seq<Block>, stretch: seq<Block>, rest: seq<Block>) returns (j: nat)
    requires ValidTargets(f) && stretch != [] && Within(f, before) && Traps(f, stretch) && Within(f, rest)
    requires Returns(f, before, stretch, stretch[|stretch| - 1])
    ensures j < |stretch| - 1 && Within(f, Place(before, stretch, rest).order)
    ensures Turn(f, Place(before, stretch, rest)) == Place(before, Rotated(stretch, j), rest)
    ensures Joins(f, before, stretch[|stretch| - 1], stretch[j])
    ensures forall i :: 0 <= i < j ==> !Joins(f, before, stretch[|stretch| - 1], stretch[i])
  {
    hide Joins, JoinAt, ValidTargets, Returns, Stays, Swaps, Candidate, Moved, Rotated, Place, Traps, Within;
    TurnCases(f, before, stretch, rest);
    var st, u := Place(before, stretch, rest), stretch[|stretch| - 1];
    var c := Candidate(f, st.order, st.cursor, 0);
    CandidateFirst(f, st.order, st.cursor, 0);
    j := c.value - |before|;
    forall i | 0 <= i < j
      ensures !Joins(f, before, u, stretch[i])
    {
      SearchSees(f, before, stretch, rest, |before| + i);
    }
    MovedInside(before, stretch, rest, j);
  }

  lemma MovedInside(before: seq<Block>, stretch: seq<Block>, rest: seq<Block>, j: nat)
    requires j < |stretch|
    ensures var st := Place(before, stretch, rest);
            State(Moved(st.order, st.cursor, |before| + j), st.cursor) == Place(before, Rotated(stretch, j), rest)
  {
    var last := |stretch| - 1;
    var a, b, u := stretch[..j], stretch[j..last], stretch[last];
    assert stretch == a + b + [u];
    assert before + stretch + rest == (before + a) + b + [u] + rest;
    MovedParts(before + a, b, u, rest);
    assert (before + a) + [u] + b + rest == before + (a + [u] + b) + rest;
  }

  lemma MovedParts(x: seq<Block>, b: seq<Block>, u: Block, rest: seq<Block>)
    ensures Moved(x + b + [u] + rest, |x| + |b|, |x|) == x + [u] + b + rest
  {
    var order := x + b + [u] + rest;
    assert order[..|x|] == x && order[|x|..|x| + |b|] == b && order[|x| + |b|] == u;
    assert order[|x| + |b| + 1..] == rest;
  }

  lemma ReturnsSame(f: Func, before: seq<Block>, a: seq<Block>, b: seq<Block>, u: Block)
    requires ValidTargets(f) && Within(f, before) && multiset(a) == multiset(b)
    ensures Swaps(f, before, a, u) <==> Swaps(f, before, b, u)
    ensures Returns(f, before, a, u) <==> Returns(f, before, b, u)
  {
    hide Joins, Stays;
    SameMembers(a, b);
  }

  lemma StuckSame(f: Func, before: seq<Block>, a: seq<Block>, b: seq<Block>)
    requires ValidTargets(f) && Within(f, before) && Stuck(f, before, a) && multiset(a) == multiset(b)
    ensures Stuck(f, before, b)
  {
    hide Returns;
    SameTraps(f, a, b);
    SameMembers(a, b);
    assert |multiset(a)| == |a| && |multiset(b)| == |b|;
    forall k | 0 <= k < |b|
      ensures Returns(f, before, b, b[k])
    {
      assert b[k] in a;
      var i :| 0 <= i < |a| && a[i] == b[k];
      ReturnsSame(f, before, a, b, a[i]);
    }
  }

  /** From a stuck stretch the cursor never moves on. */
  lemma {:induction false} StuckForever(f: Func, before: seq<Block>, stretch: seq<Block>, rest: seq<Block>, n: nat)
    requires ValidTargets(f) && Within(f, before) && Stuck(f, before, stretch) && Within(f, rest)
    ensures Within(f, Place(before, stretch, rest).order)
    ensures Turns(f, Place(before, stretch, rest), n).cursor == Place(before, stretch, rest).cursor
    decreases n
  {
    hide ValidTargets, Within, Turn, Returns, Traps, Rotated, Joins;
    PlaceWithin(f, before, stretch, rest);
    if n > 0 {
      assert Returns(f, before, stretch, stretch[|stretch| - 1]);
      hide Stuck;
      var j := TurnReturns(f, before, stretch, rest);
      RotatedSame(stretch, j);
      StuckSame(f, before, stretch, Rotated(stretch, j));
      StuckForever(f, before, Rotated(stretch, j), rest, n - 1);
    }
  }

  // ---- a stretch stops, drops or sticks ----

  /** The last block of the stretch has no place to go to: the cursor moves on. */
  ghost predicate Stops(f: Func, before: seq<Block>, stretch: seq<Block>)
    requires ValidTargets(f) && Within(f, before) && stretch != []
  {
    Stays(f, before, stretch[|stretch| - 1]) && !Swaps(f, before, stretch, stretch[|stretch| - 1])
  }

  /** It has one before the stretch. */
  ghost predicate Drops(f: Func, before: seq<Block>, stretch: seq<Block>)
    requires ValidTargets(f) && Within(f, before) && stretch != []
  {
    !Stays(f, before, stretch[|stretch| - 1])
  }

  /** Some end of the stretch is stuck. */
  ghost predicate Sticks(f: Func, before: seq<Block>, stretch: seq<Block>)
    requires ValidTargets(f) && Within(f, before) && Traps(f, stretch)
  {
    exists a, b :: a + b == stretch && StuckEnd(f, before, a, b)
  }

  ghost predicate StuckEnd(f: Func, before: seq<Block>, a: seq<Block>, b: seq<Block>)
    requires ValidTargets(f)
  {
    Within(f, before + a) && Stuck(f, before + a, b)
  }

  ghost predicate AtOrAfter(ts: seq<Block>, x: Block, k: nat) {
    exists i :: k <= i < |ts| && ts[i] == x
  }

  /** Each block goes back into the stretch, or has not moved towards its front, but r places away. */
  ghost predicate Drifted(f: Func, before: seq<Block>, stretch: seq<Block>, now: seq<Block>, r: nat)
    requires ValidTargets(f) && Within(f, before)
  {
    forall k :: 0 <= k < |stretch| ==> Returns(f, before, stretch, stretch[k]) || AtOrAfter(now, stretch[k], k + r)
  }

  lemma StaysSplit(f: Func, before: seq<Block>, h: Block, u: Block)
    requires ValidTargets(f) && Within(f, before) && h < |f|
    ensures Stays(f, before + [h], u) <==> Stays(f, before, u) && !Joins(f, before, u, h)
  {
    hide Joins;
    var more := before + [h];
    assert more[..|before|] == before;
    assert forall idx :: 0 <= idx < |before| ==> more[..idx] == before[..idx] && more[idx] == before[idx];
    if Stays(f, more, u) {
      assert !Joins(f, more[..|before|], u, more[|before|]);
      forall idx | 0 <= idx < |before|
        ensures !Joins(f, before[..idx], u, before[idx])
      {
        assert !Joins(f, more[..idx], u, more[idx]);
      }
    }
  }

  lemma SwapsSplit(f: Func, before: seq<Block>, h: Block, b: seq<Block>, u: Block)
    requires ValidTargets(f) && Within(f, before) && Traps(f, [h])
    ensures Within(f, before + [h])
    ensures Swaps(f, before, [h] + b, u) <==> Joins(f, before, u, h) || Swaps(f, before + [h], b, u)
  {
    hide Joins;
    forall w
      ensures Joins(f, before + [h], u, w) <==> Joins(f, before, u, w)
    {
      JoinsPastTraps(f, before, [h], u, w);
    }
    assert forall w :: w in [h] + b <==> w == h || w in b;
  }

  lemma ReturnsDown(f: Func, before: seq<Block>, h: Block, b: seq<Block>, all: seq<Block>, u: Block)
    requires ValidTargets(f) && Within(f, before) && Traps(f, [h]) && multiset(all) == multiset([h] + b)
    ensures Within(f, before + [h])
    ensures Returns(f, before + [h], b, u) ==> Returns(f, before, all, u)
  {
    hide Joins, Stays, Swaps;
    assert [h][0] == h;
    SwapsSplit(f, before, h, b, u);
    StaysSplit(f, before, h, u);
    ReturnsSame(f, before, [h] + b, all, u);
  }

  lemma DriftRound(f: Func, before: seq<Block>, stretch: seq<Block>, r: nat, h: Block, b: seq<Block>, b': seq<Block>)
    requires ValidTargets(f) && Within(f, before) && Traps(f, [h]) && Within(f, before + [h])
    requires multiset(stretch) == multiset([h] + b)
    requires Drifted(f, before, stretch, [h] + b, r) && Drifted(f, before + [h], b, b', 0)
    ensures Drifted(f, before, stretch, [h] + b', r)
  {
    hide Returns;
    forall k | 0 <= k < |stretch| && !Returns(f, before, stretch, stretch[k])
      ensures AtOrAfter([h] + b', stretch[k], k + r)
    {
      var x := stretch[k];
      var i :| k + r <= i < |[h] + b| && ([h] + b)[i] == x;
      if i == 0 {
        assert ([h] + b')[0] == x;
      } else {
        assert b[i - 1] == x;
        ReturnsDown(f, before, h, b, stretch, x);
        assert AtOrAfter(b', b[i - 1], i - 1 + 0);
        var q :| i - 1 <= q < |b'| && b'[q] == x;
        assert ([h] + b')[q + 1] == x;
      }
    }
  }

  lemma DriftTurn(f: Func, before: seq<Block>, stretch: seq<Block>, now: seq<Block>, r: nat)
    requires ValidTargets(f) && Within(f, before) && now != [] && Drifted(f, before, stretch, now, r)
    requires Returns(f, before, stretch, now[|now| - 1])
    ensures Drifted(f, before, stretch, Rotated(now, 0), r + 1)
  {
    hide Returns;
    var next := Rotated(now, 0);
    assert forall i :: 0 <= i < |now| - 1 ==> next[i + 1] == now[i];
    forall k | 0 <= k < |stretch| && !Returns(f, before, stretch, stretch[k])
      ensures AtOrAfter(next, stretch[k], k + (r + 1))
    {
      var i :| k + r <= i < |now| && now[i] == stretch[k];
      assert next[i + 1] == now[i];
    }
  }

  /** Where a number of turns inside a stretch leads. */
  ghost predicate Leads(f: Func, before: seq<Block>, stretch: seq<Block>, rest: seq<Block>, n: nat, now: seq<Block>)
    requires ValidTargets(f) && Within(f, before) && stretch != [] && Traps(f, stretch) && Within(f, rest)
  {
    && multiset(now) == multiset(stretch) && now != [] && Traps(f, now)
    && Within(f, Place(before, stretch, rest).order)
    && Turns(f, Place(before, stretch, rest), n) == Place(before, now, rest)
  }

  lemma LeadsNowhere(f: Func, before: seq<Block>, stretch: seq<Block>, rest: seq<Block>)
    requires ValidTargets(f) && Within(f, before) && stretch != [] && Traps(f, stretch) && Within(f, rest)
    ensures Leads(f, before, stretch, rest, 0, stretch)
  {
    PlaceWithin(f, before, stretch, rest);
  }

  lemma LeadsInside(f: Func, before: seq<Block>, stretch: seq<Block>, rest: seq<Block>, n: nat,
                    h: Block, b: seq<Block>, m: nat, b': seq<Block>)
    requires ValidTargets(f) && Within(f, before) && stretch != [] && Traps(f, stretch) && Within(f, rest)
    requires Leads(f, before, stretch, rest, n, [h] + b) && b != [] && Traps(f, b) && Within(f, before + [h])
    requires Leads(f, before + [h], b, rest, m, b')
    ensures Leads(f, before, stretch, rest, n + m, [h] + b')
  {
    hide Turns, ValidTargets, Within;
    assert before + ([h] + b) + rest == before + [h] + b + rest;
    assert before + ([h] + b') + rest == before + [h] + b' + rest;
    assert Place(before, [h] + b, rest) == Place(before + [h], b, rest);
    MultisetLength(b, b');
    assert Place(before, [h] + b', rest) == Place(before + [h], b', rest);
    assert multiset([h] + b) == multiset([h]) + multiset(b) && multiset([h] + b') == multiset([h]) + multiset(b');
    SameTraps(f, stretch, [h] + b');
    TurnsAdd(f, Place(before, stretch, rest), n, m);
  }

  lemma MultisetLength(a: seq<Block>, b: seq<Block>)
    requires multiset(a) == multiset(b)
    ensures |a| == |b|
  {
    assert |multiset(a)| == |a| && |multiset(b)| == |b|;
  }

  lemma LeadsRound(f: Func, before: seq<Block>, stretch: seq<Block>, rest: seq<Block>, n: nat, now: seq<Block>)
    requires ValidTargets(f) && Within(f, before) && stretch != [] && Traps(f, stretch) && Within(f, rest)
    requires Leads(f, before, stretch, rest, n, now) && Stays(f, before, now[|now| - 1])
    requires Joins(f, before, now[|now| - 1], now[0])
    ensures Leads(f, before, stretch, rest, n + 1, Rotated(now, 0))
  {
    hide Turns, ValidTargets, Stays, Joins, Turn;
    assert now[0] in now;
    assert Returns(f, before, now, now[|now| - 1]);
    var j := TurnReturns(f, before, now, rest);
    assert j == 0;
    RotatedSame(now, 0);
    SameTraps(f, now, Rotated(now, 0));
    PlaceWithin(f, before, now, rest);
    TurnsOne(f, Place(before, now, rest));
    TurnsAdd(f, Place(before, stretch, rest), n, 1);
  }

  lemma DriftedStart(f: Func, before: seq<Block>, stretch: seq<Block>)
    requires ValidTargets(f) && Within(f, before)
    ensures Drifted(f, before, stretch, stretch, 0)
  {
    hide Returns;
    forall k | 0 <= k < |stretch|
      ensures AtOrAfter(stretch, stretch[k], k + 0)
    {
      assert stretch[k] == stretch[k];
    }
  }

  lemma DriftedLess(f: Func, before: seq<Block>, stretch: seq<Block>, now: seq<Block>, r: nat)
    requires ValidTargets(f) && Within(f, before) && Drifted(f, before, stretch, now, r)
    ensures Drifted(f, before, stretch, now, 0)
  {
    hide Returns;
    forall k | 0 <= k < |stretch| && AtOrAfter(now, stretch[k], k + r)
      ensures AtOrAfter(now, stretch[k], k + 0)
    {
      var i :| k + r <= i < |now| && now[i] == stretch[k];
    }
  }

  lemma SingleStretch(f: Func, before: seq<Block>, stretch: seq<Block>)
    requires ValidTargets(f) && Within(f, before) && |stretch| == 1
    ensures Stops(f, before, stretch) || Drops(f, before, stretch)
  {
    NotSelf(f, before, stretch[0]);
    hide Joins;
  }

  lemma LeadsParts(f: Func, before: seq<Block>, stretch: seq<Block>, rest: seq<Block>, n: nat, now: seq<Block>)
    requires ValidTargets(f) && Within(f, before) && stretch != [] && Traps(f, stretch) && Within(f, rest)
    requires Leads(f, before, stretch, rest, n, now)
    ensures multiset(now) == multiset(stretch) && |now| == |stretch| && Traps(f, now)
  {
    MultisetLength(now, stretch);
  }

  lemma HeadTail(f: Func, before: seq<Block>, h: Block, b: seq<Block>)
    requires Within(f, before) && Traps(f, [h] + b)
    ensures Traps(f, [h]) && Traps(f, b) && Within(f, before + [h]) && h < |f|
  {
    assert ([h] + b)[0] == h;
    assert forall k :: 0 <= k < |b| ==> ([h] + b)[k + 1] == b[k];
  }

  /** What the end of the stretch came to, for the whole of it: done, or its last block goes to the front. */
  lemma RoundResult(f: Func, before: seq<Block>, h: Block, b: seq<Block>) returns (done: bool)
    requires ValidTargets(f) && Within(f, before) && b != [] && Traps(f, [h] + b)
    requires Within(f, before + [h]) && Traps(f, [h]) && Traps(f, b)
    requires Stops(f, before + [h], b) || Drops(f, before + [h], b) || Sticks(f, before + [h], b)
    ensures done ==> Stops(f, before, [h] + b) || Drops(f, before, [h] + b) || Sticks(f, before, [h] + b)
    ensures !done ==> Stays(f, before, b[|b| - 1]) && Joins(f, before, b[|b| - 1], h)
  {
    hide Joins, Stays, Swaps, Stuck, Within, ValidTargets;
    var u := b[|b| - 1];
    assert ([h] + b)[|b|] == u;
    assert [h][0] == h;
    StaysSplit(f, before, h, u);
    SwapsSplit(f, before, h, b, u);
    if Stops(f, before + [h], b) {
      return true;
    }
    if Sticks(f, before + [h], b) {
      StuckLonger(f, before, h, b);
      return true;
    }
    return !Stays(f, before, u);
  }

  lemma StuckLonger(f: Func, before: seq<Block>, h: Block, b: seq<Block>)
    requires ValidTargets(f) && Within(f, before) && Traps(f, [h] + b) && Within(f, before + [h]) && Traps(f, b)
    requires Sticks(f, before + [h], b)
    ensures Sticks(f, before, [h] + b)
  {
    hide Stuck, Within;
    var x, y :| x + y == b && StuckEnd(f, before + [h], x, y);
    assert before + [h] + x == before + ([h] + x);
    assert ([h] + x) + y == [h] + b && StuckEnd(f, before, [h] + x, y);
  }

  lemma RoundReturns(f: Func, before: seq<Block>, stretch: seq<Block>, now: seq<Block>)
    requires ValidTargets(f) && Within(f, before) && now != [] && multiset(now) == multiset(stretch)
    requires Stays(f, before, now[|now| - 1]) && Joins(f, before, now[|now| - 1], now[0])
    ensures Returns(f, before, stretch, now[|now| - 1])
  {
    hide Joins, Stays;
    SameMembers(now, stretch);
    assert now[0] in stretch;
  }

  lemma AllReturn(f: Func, before: seq<Block>, stretch: seq<Block>, now: seq<Block>, r: nat)
    requires ValidTargets(f) && Within(f, before) && stretch != [] && Traps(f, stretch) && Traps(f, now)
    requires multiset(now) == multiset(stretch) && |now| == |stretch| <= r && Drifted(f, before, stretch, now, r)
    ensures Sticks(f, before, now)
  {
    hide Returns;
    assert Stuck(f, before, stretch);
    StuckSame(f, before, stretch, now);
    hide Stuck;
    assert before + [] == before;
    assert [] + now == now && StuckEnd(f, before, [], now);
  }

  /** Turns at the end of a stretch of traps lead, in the end, to one of three things. */
  lemma {:induction false} Settle(f: Func, before: seq<Block>, stretch: seq<Block>, rest: seq<Block>)
    returns (n: nat, now: seq<Block>)
    requires ValidTargets(f) && Within(f, before) && stretch != [] && Traps(f, stretch) && Within(f, rest)
    ensures Leads(f, before, stretch, rest, n, now) && Drifted(f, before, stretch, now, 0)
    ensures Stops(f, before, now) || Drops(f, before, now) || Sticks(f, before, now)
    decreases |stretch|
  {
    hide ValidTargets, Within, Leads, Drifted, Stops, Drops, Sticks, Joins;
    n, now := 0, stretch;
    LeadsNowhere(f, before, stretch, rest);
    DriftedStart(f, before, stretch);
    if |stretch| == 1 {
      SingleStretch(f, before, stretch);
      return;
    }
    var r := 0;
    while r < |stretch|
      invariant Leads(f, before, stretch, rest, n, now) && Drifted(f, before, stretch, now, r)
      decreases |stretch| - r
    {
      LeadsParts(f, before, stretch, rest, n, now);
      DriftedLess(f, before, stretch, now, r);
      var h, b := now[0], now[1..];
      assert now == [h] + b;
      HeadTail(f, before, h, b);
      var m, b' := Settle(f, before + [h], b, rest);
      LeadsInside(f, before, stretch, rest, n, h, b, m, b');
      DriftRound(f, before, stretch, r, h, b, b');
      n, now := n + m, [h] + b';
      LeadsParts(f, before, stretch, rest, n, now);
      LeadsParts(f, before + [h], b, rest, m, b');
      DriftedLess(f, before, stretch, now, r);
      var done := RoundResult(f, before, h, b');
      if done {
        return;
      }
      var u := now[|now| - 1];
      LeadsRound(f, before, stretch, rest, n, now);
      RoundReturns(f, before, stretch, now);
      DriftTurn(f, before, stretch, now, r);
      n, now, r := n + 1, Rotated(now, 0), r + 1;
    }
    LeadsParts(f, before, stretch, rest, n, now);
    DriftedLess(f, before, stretch, now, r);
    AllReturn(f, before, stretch, now, r);
  }

  // ---- what every turn keeps ----

  /** Turns reorder only trap blocks, and never the first block. */
  ghost predicate Reordered(f: Func, was: seq<Block>, now: seq<Block>)
    requires Within(f, was)
  {
    && multiset(now) == multiset(was) && |now| == |was| && Within(f, now)
    && Others(f, now) == Others(f, was) && Inversions(f, now, 0) <= Inversions(f, was, 0)
    && (was != [] ==> now[0] == was[0]) && (Entered(f, was) ==> Entered(f, now))
  }

  lemma TurnReorders(f: Func, st: State)
    requires ValidTargets(f) && Within(f, st.order) && st.cursor < |st.order|
    ensures Reordered(f, st.order, Turn(f, st).order) && st.cursor <= Turn(f, st).cursor <= |st.order|
  {
    hide ValidTargets, Joins, Others, Inversions, Candidate, Entered, JoinAt;
    if f[st.order[st.cursor]].Unreachable? {
      var c := Candidate(f, st.order, st.cursor, 0);
      CandidateFirst(f, st.order, st.cursor, 0);
      if c.Some? {
        if Entered(f, st.order) {
          MovedEntered(f, st.order, st.cursor, c.value);
        }
        NotFirst(f, st.order, st.cursor, c.value);
        MovedKeeps(f, st.order, st.cursor, c.value);
        MovedMultiset(st.order, st.cursor, c.value);
      }
    }
  }

  lemma NotFirst(f: Func, order: seq<Block>, cursor: nat, idx: nat)
    requires ValidTargets(f) && Within(f, order) && idx <= cursor < |order| && JoinAt(f, order, cursor, idx)
    ensures idx > 0
  {
  }

  lemma {:induction false} TurnsReorder(f: Func, st: State, n: nat)
    requires ValidTargets(f) && Within(f, st.order) && st.cursor <= |st.order|
    ensures Reordered(f, st.order, Turns(f, st, n).order) && st.cursor <= Turns(f, st, n).cursor <= |st.order|
    decreases n
  {
    hide ValidTargets, Others, Inversions, Turn, Entered;
    if n > 0 && st.cursor < |st.order| {
      TurnReorders(f, st);
      TurnsReorder(f, Turn(f, st), n - 1);
    }
  }

  // ---- the end ----

  /** Where the run of traps up to the cursor begins. */
  function RunStart(f: Func, order: seq<Block>, c: nat): (a: nat)
    requires Within(f, order) && c < |order| && f[order[c]].Unreachable?
    ensures a <= c && Traps(f, order[a..c + 1])
    ensures a > 0 ==> !f[order[a - 1]].Unreachable?
  {
    if c > 0 && f[order[c - 1]].Unreachable? then
      var a := RunStart(f, order, c - 1);
      assert order[a..c + 1] == order[a..c] + [order[c]];
      a
    else c
  }

  ghost predicate StuckAs(f: Func, st: State, before: seq<Block>, stretch: seq<Block>, rest: seq<Block>)
    requires ValidTargets(f)
  {
    && stretch != [] && Within(f, before) && Within(f, rest)
    && st == Place(before, stretch, rest) && Stuck(f, before, stretch)
  }

  /** The state holds a stuck stretch at its cursor. */
  ghost predicate StuckState(f: Func, st: State)
    requires ValidTargets(f)
  {
    exists before, stretch, rest :: StuckAs(f, st, before, stretch, rest)
  }

  lemma SticksState(f: Func, before: seq<Block>, now: seq<Block>, rest: seq<Block>)
    requires ValidTargets(f) && Within(f, before) && now != [] && Traps(f, now) && Within(f, rest)
    requires Sticks(f, before, now)
    ensures StuckState(f, Place(before, now, rest))
  {
    hide Stuck, Within;
    var a, b :| a + b == now && StuckEnd(f, before, a, b);
    StuckNonempty(f, before + a, b);
    assert before + now + rest == (before + a) + b + rest;
    assert StuckAs(f, Place(before, now, rest), before + a, b, rest);
  }

  lemma StuckNonempty(f: Func, before: seq<Block>, stretch: seq<Block>)
    requires ValidTargets(f) && Within(f, before) && Stuck(f, before, stretch)
    ensures stretch != []
  {
  }

  /** A drop takes a trap block past one that does not trap. */
  lemma DropShrinks(f: Func, before: seq<Block>, now: seq<Block>, rest: seq<Block>)
    requires ValidTargets(f) && Within(f, before) && now != [] && Traps(f, now) && Within(f, rest)
    requires Drops(f, before, now) && (before != [] ==> !f[before[|before| - 1]].Unreachable?)
    ensures Within(f, Place(before, now, rest).order)
    ensures var st := Place(before, now, rest);
            && st.cursor < |st.order| == |Turn(f, st).order|
            && Within(f, Turn(f, st).order) && Turn(f, st).cursor == st.cursor
            && Inversions(f, Turn(f, st).order, 0) < Inversions(f, st.order, 0)
  {
    hide ValidTargets, Joins, Others, Inversions, Candidate, Stays, Returns;
    TurnCases(f, before, now, rest);
    var st := Place(before, now, rest);
    var c := Candidate(f, st.order, st.cursor, 0);
    MovedKeeps(f, st.order, st.cursor, c.value);
    assert st.order[|before| - 1] == before[|before| - 1];
    OtherInside(f, st.order, c.value, |before| - 1, st.cursor);
  }

  lemma OtherInside(f: Func, order: seq<Block>, i: nat, k: nat, j: nat)
    requires Within(f, order) && i <= k < j <= |order| && !f[order[k]].Unreachable?
    ensures Others(f, order[i..j]) != []
  {
    var a, b := order[i..k], order[k..j];
    assert order[i..j] == a + b && b[0] == order[k];
    OthersConcat(f, a, b);
  }

  lemma RunPlace(f: Func, order: seq<Block>, c: nat) returns (before: seq<Block>, stretch: seq<Block>, rest: seq<Block>)
    requires Within(f, order) && c < |order| && f[order[c]].Unreachable?
    ensures stretch != [] && State(order, c) == Place(before, stretch, rest)
    ensures Within(f, before) && Traps(f, stretch) && Within(f, rest)
    ensures before != [] ==> !f[before[|before| - 1]].Unreachable?
  {
    var a := RunStart(f, order, c);
    before, stretch, rest := order[..a], order[a..c + 1], order[c + 1..];
    assert order == before + stretch + rest;
  }

  /** Turns that move on, meet a stuck stretch, or take a trap block past one that does not trap. */
  lemma AdvanceOnce(f: Func, order: seq<Block>, c: nat) returns (n: nat)
    requires ValidTargets(f) && Within(f, order) && c < |order| && f[order[c]].Unreachable?
    ensures var r := Turns(f, State(order, c), n);
            || r.cursor == c + 1
            || StuckState(f, r)
            || (r.cursor == c && |r.order| == |order| && Within(f, r.order)
                && Inversions(f, r.order, 0) < Inversions(f, order, 0))
  {
    hide ValidTargets, Inversions, Others, Turns, Turn, Stops, Drops, Sticks, Leads, Drifted, StuckState, Within, Place;
    var st := State(order, c);
    var before, stretch, rest := RunPlace(f, order, c);
    var m, now := Settle(f, before, stretch, rest);
    LeadsTo(f, before, stretch, rest, m, now);
    var st' := Place(before, now, rest);
    if Sticks(f, before, now) {
      SticksState(f, before, now, rest);
      return m;
    }
    TurnsOne(f, st');
    TurnsAdd(f, st, m, 1);
    if Stops(f, before, now) {
      StopsTurn(f, before, now, rest);
    } else {
      DropShrinks(f, before, now, rest);
      NoMoreInversions(f, st, m);
    }
    return m + 1;
  }

  lemma PlainTurn(f: Func, order: seq<Block>, c: nat)
    requires ValidTargets(f) && Within(f, order) && c < |order| && !f[order[c]].Unreachable?
    ensures Turns(f, State(order, c), 1).cursor == c + 1
  {
    hide Turns;
    TurnsOne(f, State(order, c));
  }

  /** At each cursor the loop moves on or meets a stuck stretch. */
  lemma {:induction false} Advance(f: Func, order: seq<Block>, c: nat) returns (n: nat)
    requires ValidTargets(f) && Within(f, order) && c < |order|
    ensures Turns(f, State(order, c), n).cursor == c + 1 || StuckState(f, Turns(f, State(order, c), n))
    decreases Inversions(f, order, 0)
  {
    hide ValidTargets, Inversions, Turns, StuckState;
    var st := State(order, c);
    if !f[order[c]].Unreachable? {
      PlainTurn(f, order, c);
      return 1;
    }
    hide Within;
    var m := AdvanceOnce(f, order, c);
    var r := Turns(f, st, m);
    if r.cursor == c + 1 || StuckState(f, r) {
      return m;
    }
    assert r == State(r.order, c);
    var k := Advance(f, r.order, c);
    TurnsAdd(f, st, m, k);
    return m + k;
  }

  lemma NoMoreInversions(f: Func, st: State, n: nat)
    requires ValidTargets(f) && Within(f, st.order) && st.cursor < |st.order|
    ensures Within(f, Turns(f, st, n).order) && |Turns(f, st, n).order| == |st.order|
    ensures Inversions(f, Turns(f, st, n).order, 0) <= Inversions(f, st.order, 0)
  {
    hide Turns, Inversions, ValidTargets;
    TurnsReorder(f, st, n);
  }

  lemma LeadsTo(f: Func, before: seq<Block>, stretch: seq<Block>, rest: seq<Block>, n: nat, now: seq<Block>)
    requires ValidTargets(f) && Within(f, before) && stretch != [] && Traps(f, stretch) && Within(f, rest)
    requires Leads(f, before, stretch, rest, n, now)
    ensures now != [] && Traps(f, now) && Within(f, Place(before, stretch, rest).order)
    ensures Turns(f, Place(before, stretch, rest), n) == Place(before, now, rest)
    ensures Within(f, Place(before, now, rest).order)
    ensures Place(before, now, rest).cursor == Place(before, stretch, rest).cursor < |Place(before, now, rest).order|
  {
    hide Turns, ValidTargets;
    MultisetLength(now, stretch);
    PlaceWithin(f, before, now, rest);
  }

  lemma StopsTurn(f: Func, before: seq<Block>, now: seq<Block>, rest: seq<Block>)
    requires ValidTargets(f) && Within(f, before) && now != [] && Traps(f, now) && Within(f, rest)
    requires Stops(f, before, now)
    ensures Within(f, Place(before, now, rest).order)
    ensures var st := Place(before, now, rest);
            st.cursor < |st.order| && Turn(f, st) == State(st.order, st.cursor + 1)
  {
    hide ValidTargets, Candidate, Stays, Swaps;
    TurnCases(f, before, now, rest);
  }

  /** The loop gets through. */
  ghost predicate Ends(f: Func, st: State)
    requires ValidTargets(f) && Within(f, st.order)
  {
    exists n :: EndsAfter(f, st, n)
  }

  ghost predicate EndsAfter(f: Func, st: State, n: nat)
    requires ValidTargets(f) && Within(f, st.order)
  {
    Turns(f, st, n).cursor == |st.order|
  }

  lemma {:induction false} EndsOrSticks(f: Func, st: State) returns (n: nat)
    requires ValidTargets(f) && Within(f, st.order) && st.cursor <= |st.order|
    ensures EndsAfter(f, st, n) || StuckState(f, Turns(f, st, n))
    decreases |st.order| - st.cursor
  {
    hide ValidTargets, StuckState, Turn;
    if st.cursor == |st.order| {
      assert Turns(f, st, 0) == st;
      return 0;
    }
    assert st == State(st.order, st.cursor);
    var m := Advance(f, st.order, st.cursor);
    hide Turns, Within;
    var r := Turns(f, st, m);
    TurnsLength(f, st, m);
    if StuckState(f, r) {
      return m;
    }
    var k := EndsOrSticks(f, r);
    TurnsAdd(f, st, m, k);
    return m + k;
  }

  lemma TurnsLength(f: Func, st: State, n: nat)
    requires ValidTargets(f) && Within(f, st.order) && st.cursor <= |st.order|
    ensures Within(f, Turns(f, st, n).order) && |Turns(f, st, n).order| == |st.order|
    ensures Turns(f, st, n).cursor <= |st.order|
  {
    hide Turns, Inversions, ValidTargets;
    TurnsReorder(f, st, n);
  }

  lemma StuckStays(f: Func, st: State, n: nat)
    requires ValidTargets(f) && Within(f, st.order) && StuckState(f, st)
    ensures Turns(f, st, n).cursor == st.cursor < |st.order|
  {
    hide ValidTargets, Within, Turns, Stuck;
    var before, stretch, rest :| StuckAs(f, st, before, stretch, rest);
    StuckForever(f, before, stretch, rest, n);
  }

  lemma DoneStays(f: Func, st: State, n: nat)
    requires ValidTargets(f) && Within(f, st.order) && st.cursor >= |st.order|
    ensures Turns(f, st, n) == st
  {
  }

  /** The hoist ends exactly when it never comes to a stuck stretch. */
  lemma EndsExactly(f: Func, st: State)
    requires ValidTargets(f) && Within(f, st.order) && st.cursor <= |st.order|
    ensures Ends(f, st) <==> forall n :: !StuckState(f, Turns(f, st, n))
  {
    hide ValidTargets, Within, Turns, StuckState;
    var k := EndsOrSticks(f, st);
    if m :| EndsAfter(f, st, m) {
      forall n
        ensures !StuckState(f, Turns(f, st, n))
      {
        NotStuckIfEnds(f, st, m, n);
      }
    }
  }

  lemma NotStuckIfEnds(f: Func, st: State, m: nat, n: nat)
    requires ValidTargets(f) && Within(f, st.order) && st.cursor <= |st.order| && EndsAfter(f, st, m)
    ensures !StuckState(f, Turns(f, st, n))
  {
    hide ValidTargets, Within, Turns, StuckState;
    TurnsLength(f, st, n);
    TurnsLength(f, st, m);
    if StuckState(f, Turns(f, st, n)) {
      StuckStays(f, Turns(f, st, n), if m > n then m - n else 0);
      if m > n {
        TurnsAdd(f, st, n, m - n);
      } else {
        TurnsAdd(f, st, m, n - m);
        DoneStays(f, Turns(f, st, m), n - m);
      }
    }
  }

  // ---- when it ends, said of the graph ----

  /** Trap u is put in front of trap w, which is a join, once both follow a certain predecessor of u. */
  ghost predicate Draws(f: Func, u: Block, w: Block)
    requires ValidTargets(f)
  {
    && Traps(f, [u]) && Traps(f, [w]) && w != u && PredCount(f, w) > 1
    && exists p :: 0 <= p < |f| && Sibling(f, p, u, w)
  }

  ghost predicate Descends(f: Func, height: Block -> nat)
    requires ValidTargets(f)
  {
    forall u, w :: Draws(f, u, w) ==> height(w) < height(u)
  }

  lemma SwapsDraws(f: Func, before: seq<Block>, stretch: seq<Block>, u: Block) returns (j: nat)
    requires ValidTargets(f) && Within(f, before) && Traps(f, stretch) && u in stretch && Swaps(f, before, stretch, u)
    ensures j < |stretch| && Draws(f, u, stretch[j])
  {
    hide ValidTargets, Sibling, PredCount;
    var w :| w in stretch && Joins(f, before, u, w);
    var p :| 0 <= p < |before| && Sibling(f, before[p], u, w);
    j :| 0 <= j < |stretch| && stretch[j] == w;
  }

  /** Going from each trap to one it is put in front of, the height runs out. */
  lemma {:induction false} Lowest(f: Func, before: seq<Block>, stretch: seq<Block>, height: Block -> nat, k: nat)
    returns (j: nat)
    requires ValidTargets(f) && Within(f, before) && Traps(f, stretch) && Descends(f, height) && k < |stretch|
    ensures j < |stretch| && !Swaps(f, before, stretch, stretch[j])
    decreases height(stretch[k])
  {
    hide ValidTargets, Within, Swaps, Draws, Traps;
    j := k;
    if Swaps(f, before, stretch, stretch[k]) {
      var l := SwapsDraws(f, before, stretch, stretch[k]);
      j := Lowest(f, before, stretch, height, l);
    }
  }

  lemma DescendsNeverStuck(f: Func, height: Block -> nat, st: State)
    requires ValidTargets(f) && Descends(f, height)
    ensures !StuckState(f, st)
  {
    hide ValidTargets, Within, Stays, Swaps, Descends;
    forall before, stretch, rest
      ensures !StuckAs(f, st, before, stretch, rest)
    {
      if stretch != [] && Within(f, before) && Traps(f, stretch) {
        var j := Lowest(f, before, stretch, height, 0);
      }
    }
  }

  /** Whatever the order, the hoist ends when no trap is put in front of others round to itself. */
  lemma DescendsEnds(f: Func, height: Block -> nat, st: State)
    requires ValidTargets(f) && Within(f, st.order) && st.cursor <= |st.order| && Descends(f, height)
    ensures Ends(f, st)
  {
    hide ValidTargets, Within, Turns, StuckState, Ends, Descends;
    forall n
      ensures !StuckState(f, Turns(f, st, n))
    {
      DescendsNeverStuck(f, height, Turns(f, st, n));
    }
    EndsExactly(f, st);
  }

  /** Trap blocks with at most one incoming edge. */
  predicate Separate(f: Func) {
    forall b :: 0 <= b < |f| && f[b].Unreachable? ==> PredCount(f, b) <= 1
  }

  /** In particular it ends when no trap block has two incoming edges. */
  lemma SeparateEnds(f: Func, st: State)
    requires ValidTargets(f) && Within(f, st.order) && st.cursor <= |st.order| && Separate(f)
    ensures Ends(f, st)
  {
    hide ValidTargets, Within, Sibling, PredCount, Ends;
    DescendsEnds(f, b => 0, st) by {
      forall u: Block, w: Block
        ensures !Draws(f, u, w)
      {
        assert Traps(f, [w]) ==> [w][0] < |f| && f[[w][0]].Unreachable?;
      }
    }
  }

  // ---- which graphs make it run on for some order ----

  /** No trap among the blocks. */
  ghost predicate Plain(f: Func, order: seq<Block>) {
    forall k :: 0 <= k < |order| ==> order[k] < |f| && !f[order[k]].Unreachable?
  }

  lemma {:induction false} PlainTurns(f: Func, order: seq<Block>, k: nat)
    requires ValidTargets(f) && Within(f, order) && k <= |order| && Plain(f, order[..k])
    ensures Turns(f, State(order, 0), k) == State(order, k)
  {
    hide ValidTargets, Candidate;
    if k > 0 {
      assert order[..k][k - 1] == order[k - 1] && forall j :: 0 <= j < k - 1 ==> order[..k][j] == order[..k - 1][j];
      PlainTurns(f, order, k - 1);
      hide Turns;
      TurnsAdd(f, State(order, 0), k - 1, 1);
      TurnsOne(f, State(order, k - 1));
    } else {
      TurnsNone(f, State(order, 0));
    }
  }

  lemma StuckParts(f: Func, before: seq<Block>, head: seq<Block>, rest: seq<Block>)
    requires ValidTargets(f) && Within(f, before) && Stuck(f, before, head + rest)
    ensures Traps(f, head) && Within(f, rest) && Within(f, before + (head + rest))
    ensures head != [] ==> Stays(f, before, head[|head| - 1])
  {
    hide ValidTargets, Stays, Swaps;
    var ts := head + rest;
    assert forall k :: 0 <= k < |head| ==> ts[k] == head[k];
    assert forall k :: 0 <= k < |rest| ==> ts[|head| + k] == rest[k];
    if head != [] {
      assert Returns(f, before, ts, ts[|head| - 1]);
    }
  }

  lemma StuckSticks(f: Func, before: seq<Block>, now: seq<Block>)
    requires ValidTargets(f) && Within(f, before) && Stuck(f, before, now)
    ensures Traps(f, now) && Sticks(f, before, now)
  {
    hide Returns;
    assert before + [] == before && [] + now == now && StuckEnd(f, before, [], now);
  }

  lemma LeadsStuck(f: Func, before: seq<Block>, head: seq<Block>, rest: seq<Block>, n: nat, now: seq<Block>)
    requires ValidTargets(f) && Within(f, before) && head != [] && Traps(f, head) && Within(f, rest)
    requires Leads(f, before, head, rest, n, now) && Stuck(f, before, head + rest)
    ensures Stuck(f, before, now + rest) && |now| == |head|
  {
    hide ValidTargets, Within, Stuck, Turns, Traps;
    MultisetLength(now, head);
    assert multiset(head + rest) == multiset(head) + multiset(rest);
    assert multiset(now + rest) == multiset(now) + multiset(rest);
    StuckSame(f, before, head + rest, now + rest);
  }

  /** The cursor does not get past traps that are stuck all together. */
  lemma {:induction false} CannotPass(f: Func, before: seq<Block>, ts: seq<Block>, j: nat) returns (n: nat)
    requires ValidTargets(f) && Within(f, before) && j < |ts| && Stuck(f, before, ts)
    ensures Within(f, before + ts) && StuckState(f, Turns(f, State(before + ts, |before| + j), n))
    decreases |ts| - j
  {
    hide ValidTargets, Within, Turns, Turn, Sticks, Leads, Drifted, StuckState, Stuck, Traps, Stays, Swaps;
    var head, rest := ts[..j + 1], ts[j + 1..];
    assert ts == head + rest && before + head + rest == before + ts;
    StuckParts(f, before, head, rest);
    var m, now := Settle(f, before, head, rest);
    LeadsTo(f, before, head, rest, m, now);
    LeadsStuck(f, before, head, rest, m, now);
    if Sticks(f, before, now) {
      SticksState(f, before, now, rest);
      return m;
    }
    StuckParts(f, before, now, rest);
    if rest == [] {
      assert now + rest == now;
      StuckSticks(f, before, now);
    }
    StopsTurn(f, before, now, rest);
    var st, st' := Place(before, head, rest), Place(before, now, rest);
    TurnsOne(f, st');
    TurnsAdd(f, st, m, 1);
    assert before + now + rest == before + (now + rest);
    var k := CannotPass(f, before, now + rest, j + 1);
    TurnsAdd(f, st, m + 1, k);
    return m + 1 + k;
  }

  lemma StuckOrder(f: Func, before: seq<Block>, stretch: seq<Block>)
    requires ValidTargets(f) && Plain(f, before) && Within(f, before) && Stuck(f, before, stretch)
    ensures Within(f, before + stretch) && !Ends(f, State(before + stretch, 0))
  {
    hide ValidTargets, Within, Turns, Ends, StuckState, Stuck;
    var order := before + stretch;
    assert order[..|before|] == before;
    StuckNonempty(f, before, stretch);
    var n := CannotPass(f, before, stretch, 0);
    PlainTurns(f, order, |before|);
    TurnsAdd(f, State(order, 0), |before|, n);
    EndsExactly(f, State(order, 0));
  }

  // ---- traps in front of a stretch do not matter ----

  lemma {:induction false} OthersPlain(f: Func, order: seq<Block>, b: Block)
    requires Within(f, order)
    ensures Within(f, Others(f, order)) && Plain(f, Others(f, order))
    ensures b in Others(f, order) <==> b in order && b < |f| && !f[b].Unreachable?
  {
    if order != [] {
      OthersPlain(f, order[1..], b);
      assert b in order <==> b == order[0] || b in order[1..];
    }
  }

  lemma {:induction false} OthersFewer(f: Func, order: seq<Block>, b: Block)
    requires Within(f, order)
    ensures multiset(Others(f, order))[b] <= multiset(order)[b]
  {
    if order != [] {
      OthersFewer(f, order[1..], b);
      assert order == [order[0]] + order[1..];
    }
  }

  lemma OthersJoin(f: Func, before: seq<Block>, u: Block, w: Block)
    requires ValidTargets(f) && Within(f, before)
    ensures Within(f, Others(f, before))
    ensures Joins(f, Others(f, before), u, w) <==> Joins(f, before, u, w)
  {
    hide PredCount, Sibling, ValidTargets, Others;
    var others := Others(f, before);
    OthersPlain(f, before, u);
    if p :| 0 <= p < |before| && Sibling(f, before[p], u, w) {
      OthersPlain(f, before, before[p]);
      if f[before[p]].Unreachable? { TrapHasNone(f, before[p], u, w); }
      assert before[p] in others;
      var q :| 0 <= q < |others| && others[q] == before[p];
    }
    if q :| 0 <= q < |others| && Sibling(f, others[q], u, w) {
      OthersPlain(f, before, others[q]);
      assert others[q] in before;
    }
  }

  lemma {:induction false} OthersStay(f: Func, before: seq<Block>, u: Block)
    requires ValidTargets(f) && Within(f, before) && Stays(f, before, u)
    ensures Within(f, Others(f, before)) && Stays(f, Others(f, before), u)
  {
    hide ValidTargets, Joins;
    if before != [] {
      var h, x := before[..|before| - 1], before[|before| - 1];
      assert before == h + [x];
      StaysSplit(f, h, x, u);
      OthersStay(f, h, u);
      OthersConcat(f, h, [x]);
      OthersJoin(f, h, u, x);
      if f[x].Unreachable? {
        assert Others(f, [x]) == [] && Others(f, h) + [] == Others(f, h);
      } else {
        assert Others(f, [x]) == [x];
        StaysSplit(f, Others(f, h), x, u);
      }
    }
  }

  lemma OthersStuck(f: Func, before: seq<Block>, stretch: seq<Block>)
    requires ValidTargets(f) && Within(f, before) && Stuck(f, before, stretch)
    ensures Within(f, Others(f, before)) && Stuck(f, Others(f, before), stretch)
  {
    hide ValidTargets, Joins, Others, Within, Stays;
    var others := Others(f, before);
    OthersPlain(f, before, 0);
    forall k | 0 <= k < |stretch|
      ensures Returns(f, others, stretch, stretch[k])
    {
      var u := stretch[k];
      assert Returns(f, before, stretch, u);
      OthersStay(f, before, u);
      var w :| w in stretch && Joins(f, before, u, w);
      OthersJoin(f, before, u, w);
    }
  }

  lemma OthersDistinct(f: Func, before: seq<Block>, stretch: seq<Block>)
    requires Within(f, before) && Distinct(before + stretch)
    ensures Within(f, Others(f, before)) && Distinct(Others(f, before) + stretch)
  {
    hide Others;
    var others := Others(f, before);
    OthersPlain(f, before, 0);
    forall b | b in others + stretch
      ensures multiset(others + stretch)[b] == 1
    {
      OthersPlain(f, before, b);
      OthersFewer(f, before, b);
      assert b in before + stretch;
    }
  }

  lemma DistinctPart(before: seq<Block>, stretch: seq<Block>, rest: seq<Block>, order: seq<Block>)
    requires multiset(before + stretch + rest) == multiset(order) && Distinct(order)
    ensures Distinct(before + stretch)
  {
    var a := before + stretch;
    forall b | b in a
      ensures multiset(a)[b] == 1
    {
      assert b in multiset(a + rest);
      assert b in multiset(order);
    }
  }

  /** The hoist ends for every order exactly when no blocks, in any order, are followed by stuck traps. */
  lemma EveryOrderEnds(f: Func)
    requires ValidTargets(f)
    ensures (forall order :: Within(f, order) && Distinct(order) ==> Ends(f, State(order, 0)))
       <==> (forall before, stretch :: Within(f, before) && Distinct(before + stretch) ==> !Stuck(f, before, stretch))
  {
    hide ValidTargets, Within, Ends, Stuck, Distinct, Turns, Others;
    if before, stretch :| Within(f, before) && Distinct(before + stretch) && Stuck(f, before, stretch) {
      var others := Others(f, before);
      OthersStuck(f, before, stretch);
      OthersDistinct(f, before, stretch);
      OthersPlain(f, before, 0);
      StuckOrder(f, others, stretch);
      assert !Ends(f, State(others + stretch, 0));
    }
    if order :| Within(f, order) && Distinct(order) && !Ends(f, State(order, 0)) {
      EndsExactly(f, State(order, 0));
      var n :| StuckState(f, Turns(f, State(order, 0), n));
      var before, stretch, rest :| StuckAs(f, Turns(f, State(order, 0), n), before, stretch, rest);
      TurnsMultiset(f, order, n);
      DistinctPart(before, stretch, rest, order);
    }
  }

  lemma TurnsMultiset(f: Func, order: seq<Block>, n: nat)
    requires ValidTargets(f) && Within(f, order)
    ensures multiset(Turns(f, State(order, 0), n).order) == multiset(order)
  {
    hide ValidTargets, Within, Turns, Others, Inversions, Entered;
    TurnsReorder(f, State(order, 0), n);
  }

  /** The loop gets through from `order` and leaves `now`. */
  ghost predicate HoistsTo(f: Func, order: seq<Block>, now: seq<Block>)
    requires ValidTargets(f) && Within(f, order)
  {
    exists n: nat :: Turns(f, State(order, 0), n) == State(now, |now|)
  }

  /** Blocks without a trap stay as they are. */
  lemma PlainStays(f: Func, order: seq<Block>, now: seq<Block>)
    requires ValidTargets(f) && Within(f, order) && Plain(f, order) && HoistsTo(f, order, now)
    ensures now == order
  {
    hide ValidTargets, Within, Turns, Plain;
    var n: nat :| Turns(f, State(order, 0), n) == State(now, |now|);
    var m := |order|;
    assert order[..m] == order;
    PlainTurns(f, order, m);
    TurnsLength(f, State(order, 0), n);
    if n < m {
      TurnsAdd(f, State(order, 0), n, m - n);
      DoneStays(f, Turns(f, State(order, 0), n), m - n);
    } else {
      TurnsAdd(f, State(order, 0), m, n - m);
      DoneStays(f, State(order, m), n - m);
    }
  }

  /** The trap hoist, for every input on which it ends: it reorders only trap blocks and keeps the
      entry first. */
  method Hoist(f: Func, order: seq<Block>) returns (r: seq<Block>)
    requires ValidTargets(f) && Within(f, order) && Ends(f, State(order, 0))
    ensures HoistsTo(f, order, r) && multiset(r) == multiset(order)
    ensures Within(f, r) && Others(f, r) == Others(f, order)
    ensures order != [] ==> r != [] && r[0] == order[0]
    ensures Entered(f, order) ==> Entered(f, r)
    ensures TrapsFirst(f, r, |r|)
  {
    hide ValidTargets, Turns, Others, Inversions, Candidate, Joins, TrapsFirst, JoinAt;
    ghost var n: nat :| EndsAfter(f, State(order, 0), n);
    ghost var k := 0;
    r := order;
    var cursor := 0;
    TurnsNone(f, State(order, 0));
    assert TrapsFirst(f, r, 0) by { NoneBehind(f, r); }
    while cursor < |r|
      invariant k <= n && Within(f, r) && |r| == |order| && cursor <= |r|
      invariant State(r, cursor) == Turns(f, State(order, 0), k)
      invariant TrapsFirst(f, r, cursor)
      decreases n - k
    {
      assert k != n;
      TurnsAdd(f, State(order, 0), k, 1);
      TurnsOne(f, State(r, cursor));
      if f[r[cursor]].Unreachable? {
        var c := Candidate(f, r, cursor, 0);
        CandidateFirst(f, r, cursor, 0);
        if c.Some? {
          TrapMoves(f, r, cursor, c.value);
          r := Moved(r, cursor, c.value);
        } else {
          TrapStays(f, r, cursor);
          cursor := cursor + 1;
        }
      } else {
        TrapStays(f, r, cursor);
        cursor := cursor + 1;
      }
      k := k + 1;
    }
    TurnsReorder(f, State(order, 0), k);
  }

  lemma NoneBehind(f: Func, order: seq<Block>)
    requires Within(f, order)
    ensures TrapsFirst(f, order, 0)
  {
  }

  lemma TurnsNone(f: Func, st: State)
    requires ValidTargets(f) && Within(f, st.order)
    ensures Turns(f, st, 0) == st
  {
  }

  // ---- an input on which it does not end ----

  /** A block that switches between two traps and a block branching to the same two. */
  function SharedTraps(): Func {
    [SwitchInt([Case(0, 2, []), Case(1, 3, [])], 1, []), Branch(2, [], 3, []), Unreachable, Unreachable]
  }

  lemma PredCountStep(f: Func, t: Terminator, b: Block)
    ensures PredCount(f + [t], b) == PredCount(f, b) + Count(Successors(t), b)
  {
    assert (f + [t])[..|f|] == f;
  }

  lemma CountPair(x: Block, y: Block, b: Block)
    ensures Count([x, y], b) == (if x == b then 1 else 0) + (if y == b then 1 else 0)
  {
    assert [x, y][..1] == [x] && [x][..0] == [];
    assert Count([x], b) == if x == b then 1 else 0;
  }

  lemma SharedTrapsEdges()
    ensures ValidTargets(SharedTraps())
    ensures Successors(SharedTraps()[0]) == [2, 3, 1] && Successors(SharedTraps()[1]) == [2, 3]
    ensures Successors(SharedTraps()[2]) == [] && Successors(SharedTraps()[3]) == []
  {
    assert Successors(SharedTraps()[0]) == [2, 3, 1];
  }

  lemma SharedTrapsCounts(b: Block)
    ensures PredCount(SharedTraps(), b) == if b == 1 then 1 else if b == 2 || b == 3 then 2 else 0
  {
    var f := SharedTraps();
    SharedTrapsEdges();
    var f1, f2, f3 := [f[0]], [f[0], f[1]], [f[0], f[1], f[2]];
    assert f1 == [] + [f[0]] && f2 == f1 + [f[1]] && f3 == f2 + [f[2]] && f == f3 + [f[3]];
    PredCountStep([], f[0], b);
    PredCountStep(f1, f[1], b);
    PredCountStep(f2, f[2], b);
    PredCountStep(f3, f[3], b);
    CountPair(2, 3, b);
    hide SharedTraps, PredCount, Successors;
    assert [2, 3, 1][..2] == [2, 3];
  }

  lemma TrapSiblings(x: Block, y: Block)
    requires (x == 2 && y == 3) || (x == 3 && y == 2)
    ensures ValidTargets(SharedTraps()) && Sibling(SharedTraps(), 0, y, x)
  {
    SharedTrapsEdges();
    SearchExact(SharedTraps(), x, x);
    assert IsPath(SharedTraps(), [x]) && [x][0] == x;
  }

  lemma NotAJoin(f: Func, before: seq<Block>, u: Block, w: Block)
    requires ValidTargets(f) && Within(f, before) && (before == [] || PredCount(f, w) <= 1)
    ensures !Joins(f, before, u, w)
  {
    hide PredCount, Sibling, ValidTargets;
  }

  lemma TrapReturns(x: Block, y: Block)
    requires (x == 2 && y == 3) || (x == 3 && y == 2)
    ensures ValidTargets(SharedTraps()) && Within(SharedTraps(), [0, 1])
    ensures Returns(SharedTraps(), [0, 1], [2, 3], y)
  {
    hide PredCount, Sibling, ValidTargets;
    var f, before := SharedTraps(), [0, 1];
    SharedTrapsCounts(1);
    SharedTrapsCounts(x);
    TrapSiblings(x, y);
    assert |f| == 4 && Within(f, before);
    hide SharedTraps;
    assert before[..0] == [];
    assert forall idx :: 0 <= idx < |before| ==> idx == 0 || before[idx] == 1;
    forall idx | 0 <= idx < |before|
      ensures !Joins(f, before[..idx], y, before[idx])
    {
      NotAJoin(f, before[..idx], y, before[idx]);
    }
    assert Sibling(f, before[0], y, x) && x in [2, 3];
  }

  /** Its two traps, at the end of the order, are stuck. */
  lemma SharedTrapsStuck()
    ensures ValidTargets(SharedTraps()) && Within(SharedTraps(), [0, 1]) && Within(SharedTraps(), [0, 1, 2, 3])
    ensures StuckState(SharedTraps(), State([0, 1, 2, 3], 3))
  {
    hide ValidTargets, Returns, StuckState;
    var f := SharedTraps();
    assert |f| == 4 && Traps(f, [2, 3]) && Within(f, [0, 1, 2, 3]);
    hide SharedTraps;
    TrapReturns(2, 3);
    TrapReturns(3, 2);
    PairStuck(f, [0, 1], 2, 3);
    assert [0, 1] + [2, 3] == [0, 1, 2, 3];
  }

  lemma PairStuck(f: Func, before: seq<Block>, x: Block, y: Block)
    requires ValidTargets(f) && Within(f, before) && Traps(f, [x, y])
    requires Returns(f, before, [x, y], x) && Returns(f, before, [x, y], y)
    ensures StuckState(f, State(before + [x, y], |before| + 1))
  {
    hide ValidTargets, Returns;
    var stretch := [x, y];
    assert forall k :: 0 <= k < |stretch| ==> stretch[k] == x || stretch[k] == y;
    assert Stuck(f, before, stretch);
    assert before + stretch + [] == before + [x, y];
    assert StuckAs(f, State(before + [x, y], |before| + 1), before, stretch, []);
  }

  lemma FirstTurns()
    ensures ValidTargets(SharedTraps()) && Within(SharedTraps(), [0, 1, 2, 3])
    ensures Turns(SharedTraps(), State([0, 1, 2, 3], 0), 3) == State([0, 1, 2, 3], 3)
  {
    var f, order := SharedTraps(), [0, 1, 2, 3];
    SharedTrapsEdges();
    SharedTrapsCounts(1);
    hide PredCount, Sibling, ValidTargets, Turns;
    assert order[..0] == [];
    NotAJoin(f, order[..0], 2, 0);
    NotAJoin(f, order[..1], 2, 1);
    NotSelf(f, order[..2], 2);
    hide Joins;
    CandidateFirst(f, order, 2, 0);
    assert Candidate(f, order, 2, 0) == None by { hide Candidate; }
    TurnsOne(f, State(order, 0));
    TurnsOne(f, State(order, 1));
    TurnsOne(f, State(order, 2));
    TurnsAdd(f, State(order, 0), 1, 1);
    TurnsAdd(f, State(order, 0), 2, 1);
  }

  /** The hoist does not end for this function with its blocks in order. */
  lemma SharedTrapsNeverEnd()
    ensures ValidTargets(SharedTraps()) && Within(SharedTraps(), [0, 1, 2, 3])
    ensures !Ends(SharedTraps(), State([0, 1, 2, 3], 0))
  {
    hide ValidTargets, Within, Turns, StuckState, Ends;
    FirstTurns();
    SharedTrapsStuck();
    EndsExactly(SharedTraps(), State([0, 1, 2, 3], 0));
  }
}
