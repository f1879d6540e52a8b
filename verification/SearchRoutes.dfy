/** Where the search puts each block, told on routes through the graph alone. A route from block 0 passes no
    block twice; routes are compared like words, by which successor they take at each block. The order of the
    search lists the blocks by their greatest routes, in ascending order. */
module SearchRoutes {
  import opened Cfg
  import opened TrapHoist
  import opened SearchOrder
  import opened Words

  // ---- routes and their order ----

  /** The blocks passed, and which successor is taken at each of them but the last. */
  datatype Route = Route(blocks: seq<Block>, turns: seq<nat>)

  ghost predicate NoneTwice(s: seq<Block>) {
    forall i, j :: 0 <= i < j < |s| ==> s[i] != s[j]
  }

  ghost predicate IsTurn(f: Func, from: Block, turn: nat, to: Block) {
    from < |f| && turn < |Successors(f[from])| && Successors(f[from])[turn] == to
  }

  ghost predicate IsRoute(f: Func, r: Route, b: Block) {
    && |r.blocks| == |r.turns| + 1 && r.blocks[0] == 0 && r.blocks[|r.turns|] == b
    && NoneTwice(r.blocks)
    && forall k :: 0 <= k < |r.turns| ==> IsTurn(f, r.blocks[k], r.turns[k], r.blocks[k + 1])
  }

  ghost predicate Greatest(f: Func, r: Route, b: Block) {
    IsRoute(f, r, b) && forall q :: IsRoute(f, q, b) ==> AtLeast(r.turns, q.turns)
  }

  // ---- what the search notes ----

  type Notes = map<Block, Route>

  ghost predicate CutAt(m: Notes, b: Block, k: nat)
    requires b in m
  {
    var r := m[b];
    && k <= |r.turns| && |r.blocks| == |r.turns| + 1
    && r.blocks[k] in m && m[r.blocks[k]] == Route(r.blocks[..k + 1], r.turns[..k])
  }

  /** Each route leads where it should, and the routes to the blocks on it are its beginnings. */
  ghost predicate AllRoutes(f: Func, m: Notes) {
    forall b :: b in m ==> IsRoute(f, m[b], b) && forall k :: 0 <= k <= |m[b].turns| ==> CutAt(m, b, k)
  }

  ghost function TurnOf(f: Func, e: Entry): nat
    requires EntryFits(f, e)
  {
    |Successors(f[e.block])| - e.looked
  }

  ghost predicate RouteOf(f: Func, stack: seq<Entry>, k: nat, r: Route)
    requires k < |stack| && forall j :: 0 <= j < |stack| ==> EntryFits(f, stack[j])
  {
    && |r.turns| == k && |r.blocks| == k + 1
    && (forall j :: 0 <= j <= k ==> r.blocks[j] == stack[j].block)
    && forall j :: 0 <= j < k ==> r.turns[j] == TurnOf(f, stack[j])
  }

  /** The stack is the route to its top. */
  ghost predicate OnStack(f: Func, s: Search, m: Notes)
    requires Fits(f, s)
  {
    forall k :: 0 <= k < |s.stack| ==> s.stack[k].block in m && RouteOf(f, s.stack, k, m[s.stack[k].block])
  }

  /** An edge leads back onto the route it leaves, or to a block with a route no smaller than the one
      through the edge. */
  ghost predicate EdgeNoted(f: Func, m: Notes, b: Block, i: nat)
    requires b < |f| && i < |Successors(f[b])|
  {
    var t := Successors(f[b])[i];
    b in m && t in m && (t in m[b].blocks || AtLeast(m[t].turns, m[b].turns + [i]))
  }

  ghost predicate EdgesNoted(f: Func, m: Notes, e: Entry)
    requires EntryFits(f, e)
  {
    forall i: nat :: TurnOf(f, e) <= i < |Successors(f[e.block])| ==> EdgeNoted(f, m, e.block, i)
  }

  ghost predicate LookedNoted(f: Func, s: Search, m: Notes)
    requires Fits(f, s)
  {
    && (forall k :: 0 <= k < |s.stack| ==> EdgesNoted(f, m, s.stack[k]))
    && forall b :: b in s.post ==> b < |f| && EdgesNoted(f, m, Entry(b, |Successors(f[b])|))
  }

  /** The word p comes after every word that starts with q and goes on below c. */
  ghost predicate BeyondAt(p: seq<nat>, q: seq<nat>, c: nat, k: nat) {
    k <= |q| && k < |p| && p[..k] == q[..k] && if k < |q| then q[k] < p[k] else c <= p[k]
  }

  ghost predicate Beyond(p: seq<nat>, q: seq<nat>, c: nat) {
    exists k: nat :: BeyondAt(p, q, c, k)
  }

  /** What is done lies behind the route to the top of the stack. */
  ghost predicate DoneBeyond(f: Func, s: Search, m: Notes)
    requires Fits(f, s)
  {
    s.stack != [] ==>
      var e := s.stack[|s.stack| - 1];
      e.block in m && forall b :: b in s.post ==> b in m && Beyond(m[b].turns, m[e.block].turns, TurnOf(f, e))
  }

  /** What is done earlier has the greater route. */
  ghost predicate DoneDescends(post: seq<Block>, m: Notes) {
    && (forall i :: 0 <= i < |post| ==> post[i] in m)
    && forall i, j :: 0 <= i < j < |post| ==> Less(m[post[j]].turns, m[post[i]].turns)
  }

  ghost predicate Routed(f: Func, s: Search, m: Notes) {
    && Fits(f, s) && m.Keys == s.visited && AllRoutes(f, m) && OnStack(f, s, m)
    && LookedNoted(f, s, m) && DoneBeyond(f, s, m) && DoneDescends(s.post, m)
  }

  // ---- a block entered ----

  lemma BeyondEntered(p: seq<nat>, q: seq<nat>, i: nat, c: nat)
    requires Beyond(p, q, i + 1)
    ensures Beyond(p, q + [i], c)
  {
    var k: nat :| BeyondAt(p, q, i + 1, k);
    assert (q + [i])[..k] == q[..k];
    assert BeyondAt(p, q + [i], c, k);
  }

  lemma BeyondLess(p: seq<nat>, q: seq<nat>, c: nat)
    requires Beyond(p, q, c)
    ensures Less(q, p)
    ensures forall i: nat :: i < c ==> Less(q + [i], p)
  {
    var k: nat :| BeyondAt(p, q, c, k);
    assert LessAt(q, p, k);
    forall i: nat | i < c ensures Less(q + [i], p) {
      assert (q + [i])[..k] == q[..k];
      assert LessAt(q + [i], p, k);
    }
  }

  lemma BeyondSkipped(p: seq<nat>, q: seq<nat>, i: nat)
    requires Beyond(p, q, i + 1)
    ensures Beyond(p, q, i)
  {
    var k: nat :| BeyondAt(p, q, i + 1, k);
    assert BeyondAt(p, q, i, k);
  }

  /** Seen from the block below, what lies behind the whole route lies behind its last turn. */
  lemma BeyondLeft(p: seq<nat>, q: seq<nat>, c: nat)
    requires q != [] && (p == q || Beyond(p, q, c))
    ensures Beyond(p, q[..|q| - 1], q[|q| - 1])
  {
    var rest, last := q[..|q| - 1], q[|q| - 1];
    if p == q {
      assert BeyondAt(p, rest, last, |rest|);
    } else {
      var k: nat :| BeyondAt(p, q, c, k);
      var l := if k < |rest| then k else |rest|;
      assert p[..l] == p[..k][..l] == q[..k][..l] == rest[..l];
      if k == |q| { assert p[..k][l] == q[..k][l]; }
      assert BeyondAt(p, rest, last, l);
    }
  }

  /** The notes with the block a turn leads to. */
  ghost function Enter(m: Notes, b: Block, i: nat, t: Block): Notes
    requires b in m
  {
    m[t := Route(m[b].blocks + [t], m[b].turns + [i])]
  }

  lemma EnteredRoutes(f: Func, m: Notes, b: Block, i: nat, t: Block)
    requires AllRoutes(f, m) && b in m && t !in m && IsTurn(f, b, i, t)
    ensures AllRoutes(f, Enter(m, b, i, t))
  {
    hide IsTurn;
    var now, r := Enter(m, b, i, t), m[b];
    var e := now[t];
    forall k | 0 <= k <= |r.turns| ensures CutAt(now, t, k) && r.blocks[k] in m {
      assert CutAt(m, b, k);
      assert e.blocks[..k + 1] == r.blocks[..k + 1] && e.turns[..k] == r.turns[..k];
    }
    assert e.blocks[..|e.turns| + 1] == e.blocks && e.turns[..|e.turns|] == e.turns;
    assert IsRoute(f, e, t);
    forall a | a in m ensures IsRoute(f, now[a], a) && forall k :: 0 <= k <= |now[a].turns| ==> CutAt(now, a, k) {
      forall k | 0 <= k <= |now[a].turns| ensures CutAt(now, a, k) {
        assert CutAt(m, a, k);
      }
    }
  }

  lemma NotedLonger(f: Func, m: Notes, now: Notes, e: Entry)
    requires EntryFits(f, e) && EdgesNoted(f, m, e) && forall a :: a in m ==> a in now && now[a] == m[a]
    ensures EdgesNoted(f, now, e)
  {
    hide Successors, AtLeast;
    forall i: nat | TurnOf(f, e) <= i < |Successors(f[e.block])| ensures EdgeNoted(f, now, e.block, i) {
      assert EdgeNoted(f, m, e.block, i);
    }
  }

  // ---- one turn ----

  ghost function Top(s: Search): Entry
    requires s.stack != []
  {
    s.stack[|s.stack| - 1]
  }

  ghost predicate Enters(f: Func, s: Search)
    requires Fits(f, s) && s.stack != [] && Top(s).block < |f|
  {
    Top(s).looked < |Successors(f[Top(s).block])| && NextOf(f, Top(s)) !in s.visited
  }

  /** The notes after a turn. */
  ghost function NotesAfter(f: Func, s: Search, m: Notes): Notes
    requires Fits(f, s) && s.stack != [] && Top(s).block in m
  {
    TopFits(f, s);
    if Enters(f, s) then Enter(m, Top(s).block, TurnOf(f, Top(s)) - 1, NextOf(f, Top(s))) else m
  }

  /** The successor looked at next is the one before those looked at. */
  lemma NextTurn(f: Func, e: Entry)
    requires EntryFits(f, e) && e.looked < |Successors(f[e.block])|
    ensures TurnOf(f, e) > 0 && IsTurn(f, e.block, TurnOf(f, e) - 1, NextOf(f, e))
    ensures EntryFits(f, Entry(e.block, e.looked + 1))
    ensures TurnOf(f, Entry(e.block, e.looked + 1)) == TurnOf(f, e) - 1
  {
  }

  lemma TurnedRoutes(f: Func, s: Search, m: Notes)
    requires ValidTargets(f) && Fits(f, s) && s.stack != [] && OnStack(f, s, m)
    requires AllRoutes(f, m) && m.Keys == s.visited
    ensures AllRoutes(f, NotesAfter(f, s, m)) && NotesAfter(f, s, m).Keys == Turned(f, s).visited
  {
    hide Successors, ValidTargets, NextOf, AllRoutes, IsTurn, EntryFits, RouteOf, Below, TurnOf;
    var e := Top(s);
    TopFits(f, s);
    EntryParts(f, e);
    if Enters(f, s) {
      NextTurn(f, e);
      EnteredRoutes(f, m, e.block, TurnOf(f, e) - 1, NextOf(f, e));
    }
  }

  lemma RouteBelow(f: Func, stack: seq<Entry>, now: seq<Entry>, k: nat, r: Route)
    requires (forall j :: 0 <= j < |stack| ==> EntryFits(f, stack[j])) && k < |stack|
    requires (forall j :: 0 <= j < |now| ==> EntryFits(f, now[j])) && k < |now|
    requires RouteOf(f, stack, k, r) && stack[..k] == now[..k] && stack[k].block == now[k].block
    ensures RouteOf(f, now, k, r)
  {
    hide Successors, EntryFits, TurnOf;
    assert forall j :: 0 <= j < k ==> stack[j] == stack[..k][j] && now[j] == now[..k][j];
  }

  lemma TurnedOnStack(f: Func, s: Search, m: Notes)
    requires ValidTargets(f) && Fits(f, s) && s.stack != [] && OnStack(f, s, m) && m.Keys == s.visited
    ensures Fits(f, Turned(f, s)) && OnStack(f, Turned(f, s), NotesAfter(f, s, m))
  {
    hide Successors, ValidTargets, NextOf, EntryFits, RouteOf, Below, TurnOf;
    TurnedFits(f, s);
    TopFits(f, s);
    var e, now, m', n := Top(s), Turned(f, s), NotesAfter(f, s, m), |s.stack|;
    EntryParts(f, e);
    forall k | 0 <= k < |now.stack|
      ensures now.stack[k].block in m' && RouteOf(f, now.stack, k, m'[now.stack[k].block])
    {
      if k < n {
        assert now.stack[..k] == s.stack[..k] && RouteOf(f, s.stack, k, m[s.stack[k].block]);
        RouteBelow(f, s.stack, now.stack, k, m[s.stack[k].block]);
      } else {
        RouteAbove(f, s, m);
      }
    }
  }

  lemma RouteAbove(f: Func, s: Search, m: Notes)
    requires ValidTargets(f) && Fits(f, s) && s.stack != [] && OnStack(f, s, m) && m.Keys == s.visited
    requires Top(s).block < |f| && Enters(f, s) && Fits(f, Turned(f, s))
    ensures var n, t := |s.stack|, NextOf(f, Top(s));
            && n < |Turned(f, s).stack| && t in NotesAfter(f, s, m)
            && RouteOf(f, Turned(f, s).stack, n, NotesAfter(f, s, m)[t])
  {
    hide Successors, ValidTargets, NextOf, EntryFits, Below, TurnOf;
    var e, now, n := Top(s), Turned(f, s).stack, |s.stack|;
    TopFits(f, s);
    NextTurn(f, e);
    assert RouteOf(f, s.stack, n - 1, m[e.block]);
    assert now[..n - 1] == s.stack[..n - 1] && now[n - 1] == Entry(e.block, e.looked + 1);
    assert forall j :: 0 <= j < n - 1 ==> now[j] == now[..n - 1][j] == s.stack[j];
  }

  lemma TurnedLookedNoted(f: Func, s: Search, m: Notes)
    requires ValidTargets(f) && Fits(f, s) && s.stack != [] && OnStack(f, s, m) && m.Keys == s.visited
    requires LookedNoted(f, s, m) && DoneBeyond(f, s, m) && Noted(s)
    ensures Fits(f, Turned(f, s)) && LookedNoted(f, Turned(f, s), NotesAfter(f, s, m))
  {
    hide Successors, ValidTargets, NextOf, EntryFits, Below, TurnOf, RouteOf, EdgesNoted, Noted, DoneBeyond;
    TurnedFits(f, s);
    TopFits(f, s);
    var e, now, m', n := Top(s), Turned(f, s), NotesAfter(f, s, m), |s.stack|;
    EntryParts(f, e);
    forall k | 0 <= k < |now.stack| ensures EdgesNoted(f, m', now.stack[k]) {
      if k < n - 1 {
        NotedLonger(f, m, m', s.stack[k]);
      } else if k == n - 1 {
        NewlyNoted(f, s, m);
      } else {
        NothingNoted(f, m', now.stack[k]);
      }
    }
    WholeFits(f);
    forall b | b in now.post ensures b < |f| && EdgesNoted(f, m', Entry(b, |Successors(f[b])|)) {
      if b in s.post { NotedLonger(f, m, m', Entry(b, |Successors(f[b])|)); }
    }
  }

  lemma WholeFits(f: Func)
    ensures forall b: Block :: b < |f| ==> EntryFits(f, Entry(b, |Successors(f[b])|))
  {
  }

  lemma NothingNoted(f: Func, m: Notes, e: Entry)
    requires EntryFits(f, e) && e.looked == 0
    ensures EdgesNoted(f, m, e)
  {
  }

  /** The edge looked at in this turn. */
  lemma NewlyNoted(f: Func, s: Search, m: Notes)
    requires ValidTargets(f) && Fits(f, s) && s.stack != [] && OnStack(f, s, m) && m.Keys == s.visited
    requires EdgesNoted(f, m, Top(s)) && DoneBeyond(f, s, m) && Noted(s)
    requires EntryFits(f, Top(s)) && Top(s).looked < |Successors(f[Top(s).block])|
    ensures var e := Top(s);
            EntryFits(f, Entry(e.block, e.looked + 1))
            && EdgesNoted(f, NotesAfter(f, s, m), Entry(e.block, e.looked + 1))
  {
    hide Successors, ValidTargets, NextOf, EntryFits, Below, TurnOf, RouteOf, Noted, DoneBeyond, AtLeast, OnStack;
    TopNoted(f, s, m);
    var e, m' := Top(s), NotesAfter(f, s, m);
    NextTurn(f, e);
    var i := TurnOf(f, e) - 1;
    NotedLonger(f, m, m', e);
    NextNoted(f, s, m);
    forall j: nat | i <= j < |Successors(f[e.block])| ensures EdgeNoted(f, m', e.block, j) {
      if j > i { assert EdgeNoted(f, m', e.block, j); }
    }
  }

  lemma TopNoted(f: Func, s: Search, m: Notes)
    requires Fits(f, s) && s.stack != [] && OnStack(f, s, m)
    ensures Top(s).block in m
  {
  }

  lemma NextNoted(f: Func, s: Search, m: Notes)
    requires Fits(f, s) && s.stack != [] && OnStack(f, s, m) && m.Keys == s.visited
    requires DoneBeyond(f, s, m) && Noted(s)
    requires EntryFits(f, Top(s)) && Top(s).looked < |Successors(f[Top(s).block])|
    ensures Top(s).block in m && TurnOf(f, Top(s)) > 0
    ensures EdgeNoted(f, NotesAfter(f, s, m), Top(s).block, TurnOf(f, Top(s)) - 1)
  {
    hide Successors, NextOf, EntryFits, Below, TurnOf, Distinct;
    var e, t := Top(s), NextOf(f, Top(s));
    NextTurn(f, e);
    var i := TurnOf(f, e) - 1;
    if t in s.visited {
      if t in Blocks(s.stack) {
        var k :| 0 <= k < |s.stack| && s.stack[k].block == t;
        assert RouteOf(f, s.stack, |s.stack| - 1, m[e.block]);
        assert m[e.block].blocks[k] == t;
      } else {
        assert t in s.post;
        BeyondLess(m[t].turns, m[e.block].turns, i + 1);
        assert Less(m[e.block].turns + [i], m[t].turns);
      }
    }
  }

  lemma TurnedBeyond(f: Func, s: Search, m: Notes)
    requires ValidTargets(f) && Fits(f, s) && s.stack != [] && OnStack(f, s, m) && m.Keys == s.visited
    requires DoneBeyond(f, s, m)
    ensures Fits(f, Turned(f, s)) && DoneBeyond(f, Turned(f, s), NotesAfter(f, s, m))
  {
    hide Successors, ValidTargets, NextOf, EntryFits, Below, TurnOf, Beyond, RouteOf;
    TurnedFits(f, s);
    TopFits(f, s);
    var e, now, m', n := Top(s), Turned(f, s), NotesAfter(f, s, m), |s.stack|;
    EntryParts(f, e);
    var q := m[e.block].turns;
    if e.looked < |Successors(f[e.block])| {
      NextTurn(f, e);
      var i := TurnOf(f, e) - 1;
      forall b | b in s.post ensures b in m' && Beyond(m'[b].turns, m'[Top(now).block].turns, TurnOf(f, Top(now))) {
        if Enters(f, s) {
          BeyondEntered(m[b].turns, q, i, TurnOf(f, Top(now)));
        } else {
          BeyondSkipped(m[b].turns, q, i);
        }
      }
    } else if n > 1 {
      RouteLeft(f, s, m);
      forall b | b in now.post ensures b in m && Beyond(m[b].turns, m[Top(now).block].turns, TurnOf(f, Top(now))) {
        if b in s.post {
          BeyondLeft(m[b].turns, q, TurnOf(f, e));
        } else {
          BeyondLeft(q, q, 0);
        }
      }
    }
  }

  /** The route to the top ends with the turn taken at the block below it. */
  lemma RouteLeft(f: Func, s: Search, m: Notes)
    requires Fits(f, s) && |s.stack| > 1 && OnStack(f, s, m)
    ensures var e, d := Top(s).block, s.stack[|s.stack| - 2];
            && e in m && d.block in m && EntryFits(f, d) && m[e].turns != []
            && m[d.block].turns == m[e].turns[..|m[e].turns| - 1]
            && TurnOf(f, d) == m[e].turns[|m[e].turns| - 1]
  {
    hide Successors, EntryFits, TurnOf;
    var n := |s.stack|;
    var e, d := m[Top(s).block], m[s.stack[n - 2].block];
    assert RouteOf(f, s.stack, n - 1, e) && RouteOf(f, s.stack, n - 2, d);
    assert d.turns == e.turns[..n - 2];
  }

  lemma TurnedDescends(f: Func, s: Search, m: Notes)
    requires ValidTargets(f) && Fits(f, s) && s.stack != [] && OnStack(f, s, m) && m.Keys == s.visited
    requires DoneBeyond(f, s, m) && DoneDescends(s.post, m)
    ensures DoneDescends(Turned(f, s).post, NotesAfter(f, s, m))
  {
    hide Successors, ValidTargets, NextOf, EntryFits, Below, TurnOf, Beyond, RouteOf, Less;
    TopFits(f, s);
    var e, now, m' := Top(s), Turned(f, s), NotesAfter(f, s, m);
    EntryParts(f, e);
    if e.looked < |Successors(f[e.block])| {
      assert now.post == s.post;
    } else {
      forall i | 0 <= i < |s.post| ensures Less(m[e.block].turns, m[s.post[i]].turns) {
        BeyondLess(m[s.post[i]].turns, m[e.block].turns, TurnOf(f, e));
      }
    }
  }

  // ---- the whole search ----

  lemma TurnedRouted(f: Func, s: Search, m: Notes)
    requires ValidTargets(f) && Routed(f, s, m) && Noted(s) && s.stack != []
    ensures Top(s).block in m && Routed(f, Turned(f, s), NotesAfter(f, s, m))
  {
    hide ValidTargets, Fits, Turned, AllRoutes, OnStack, LookedNoted, DoneBeyond, DoneDescends, Noted, NotesAfter;
    TopNoted(f, s, m);
    TurnedRoutes(f, s, m);
    TurnedOnStack(f, s, m);
    TurnedLookedNoted(f, s, m);
    TurnedBeyond(f, s, m);
    TurnedDescends(f, s, m);
  }

  lemma {:induction false} SearchedRouted(f: Func, s: Search, m: Notes) returns (all: Notes)
    requires ValidTargets(f) && Routed(f, s, m) && Noted(s)
    ensures Routed(f, Searched(f, s), all) && Searched(f, s).stack == []
    decreases |Below(|f|) - s.visited|, LeftOf(f, s)
  {
    hide ValidTargets, Noted, Turned, Below, LeftOf, AllRoutes, OnStack, LookedNoted, DoneBeyond, DoneDescends,
         NotesAfter;
    if s.stack == [] {
      all := m;
    } else {
      TurnedLess(f, s);
      TurnedNoted(f, s);
      TurnedRouted(f, s, m);
      all := SearchedRouted(f, Turned(f, s), NotesAfter(f, s, m));
    }
  }

  lemma StartRouted(f: Func)
    requires f != []
    ensures Routed(f, FromEntry(), map[0 := Route([0], [])]) && Noted(FromEntry())
  {
    StartKept(f);
  }

  // ---- greatest routes ----

  /** Every edge of a noted block is noted. */
  ghost predicate FullyNoted(f: Func, m: Notes) {
    && AllRoutes(f, m) && 0 in m && m[0].turns == []
    && forall b, i: nat :: b in m && b < |f| && i < |Successors(f[b])| ==> EdgeNoted(f, m, b, i)
  }

  lemma SameEnd(f: Func, p: Route, q: Route, b: Block)
    requires IsRoute(f, p, b) && IsRoute(f, q, b) && Less(p.turns, q.turns)
    ensures exists k: nat :: LessAt(p.turns, q.turns, k) && k < |p.turns|
  {
    hide IsTurn;
    var k: nat :| LessAt(p.turns, q.turns, k);
    SameBlocksPassed(f, p, q, k);
    assert p.blocks[..k + 1][k] == q.blocks[..k + 1][k];
  }

  lemma {:induction false} SameBlocksPassed(f: Func, p: Route, q: Route, k: nat)
    requires |p.blocks| == |p.turns| + 1 && |q.blocks| == |q.turns| + 1 && p.blocks[0] == q.blocks[0]
    requires forall j :: 0 <= j < |p.turns| ==> IsTurn(f, p.blocks[j], p.turns[j], p.blocks[j + 1])
    requires forall j :: 0 <= j < |q.turns| ==> IsTurn(f, q.blocks[j], q.turns[j], q.blocks[j + 1])
    requires k <= |p.turns| && k <= |q.turns| && p.turns[..k] == q.turns[..k]
    ensures p.blocks[..k + 1] == q.blocks[..k + 1]
  {
    if k > 0 {
      assert p.turns[..k - 1] == p.turns[..k][..k - 1] && q.turns[..k - 1] == q.turns[..k][..k - 1];
      assert p.turns[k - 1] == p.turns[..k][k - 1] && q.turns[k - 1] == q.turns[..k][k - 1];
      SameBlocksPassed(f, p, q, k - 1);
      assert p.blocks[k - 1] == p.blocks[..k][k - 1] && q.blocks[k - 1] == q.blocks[..k][k - 1];
      assert IsTurn(f, p.blocks[k - 1], p.turns[k - 1], p.blocks[k]);
      assert IsTurn(f, q.blocks[k - 1], q.turns[k - 1], q.blocks[k]);
    }
  }

  /** The route before its last turn. */
  lemma RouteBefore(f: Func, q: Route, b: Block) returns (p: Route, a: Block, i: nat)
    requires IsRoute(f, q, b) && q.turns != []
    ensures q.blocks == p.blocks + [b] && q.turns == p.turns + [i]
    ensures IsRoute(f, p, a) && IsTurn(f, a, i, b) && b !in p.blocks
  {
    var n := |q.turns|;
    p, a, i := Route(q.blocks[..n], q.turns[..n - 1]), q.blocks[n - 1], q.turns[n - 1];
    assert IsTurn(f, q.blocks[n - 1], q.turns[n - 1], q.blocks[n - 1 + 1]);
    forall k | 0 <= k < |p.turns| ensures IsTurn(f, p.blocks[k], p.turns[k], p.blocks[k + 1]) {
      assert IsTurn(f, q.blocks[k], q.turns[k], q.blocks[k + 1]);
    }
  }

  /** No route to a block is greater than the one noted for it. */
  lemma {:induction false} NotedGreatest(f: Func, m: Notes, q: Route, b: Block)
    requires FullyNoted(f, m) && IsRoute(f, q, b)
    ensures b in m && AtLeast(m[b].turns, q.turns)
    decreases |q.turns|
  {
    hide FullyNoted, IsRoute, AllRoutes, Less;
    if q.turns == [] {
      StartOnly(f, m, q, b);
    } else {
      var p, a, i := RouteBefore(f, q, b);
      NotedGreatest(f, m, p, a);
      EdgeOf(f, m, a, i, b);
      if b in m[a].blocks {
        BackOnRoute(f, m, p, a, i, b);
      } else {
        OneTurnMore(f, m, p, a, i, b);
      }
    }
  }

  lemma StartOnly(f: Func, m: Notes, q: Route, b: Block)
    requires FullyNoted(f, m) && IsRoute(f, q, b) && q.turns == []
    ensures b in m && m[b].turns == q.turns
  {
  }

  lemma EdgeOf(f: Func, m: Notes, a: Block, i: nat, b: Block)
    requires FullyNoted(f, m) && a in m && IsTurn(f, a, i, b)
    ensures b in m && (b in m[a].blocks || AtLeast(m[b].turns, m[a].turns + [i]))
  {
    hide AllRoutes, AtLeast;
    assert EdgeNoted(f, m, a, i);
  }

  lemma OneTurnMore(f: Func, m: Notes, p: Route, a: Block, i: nat, b: Block)
    requires FullyNoted(f, m) && IsRoute(f, p, a) && a in m && b in m
    requires AtLeast(m[a].turns, p.turns) && AtLeast(m[b].turns, m[a].turns + [i])
    ensures AtLeast(m[b].turns, p.turns + [i])
  {
    hide IsRoute, LessAt;
    if m[a].turns != p.turns {
      SameEnd(f, p, m[a], a);
      var k: nat :| LessAt(p.turns, m[a].turns, k) && k < |p.turns|;
      LessApart(p.turns, m[a].turns, k, [i], [i]);
      if m[b].turns != m[a].turns + [i] {
        LessTransitive(p.turns + [i], m[a].turns + [i], m[b].turns);
      }
    }
  }

  lemma BackOnRoute(f: Func, m: Notes, p: Route, a: Block, i: nat, b: Block)
    requires FullyNoted(f, m) && IsRoute(f, p, a) && a in m && b in m && b !in p.blocks
    requires AtLeast(m[a].turns, p.turns) && b in m[a].blocks
    ensures Less(p.turns + [i], m[b].turns)
  {
    hide IsTurn, Less;
    var r := m[a];
    var l :| 0 <= l < |r.blocks| && r.blocks[l] == b;
    assert CutAt(m, a, l);
    if r.turns == p.turns { SameBlocksPassed(f, p, r, |p.turns|); }
    assert r.turns == p.turns ==> r.blocks == p.blocks;
    SameEnd(f, p, r, a);
    var k: nat :| LessAt(p.turns, r.turns, k) && k < |p.turns|;
    SameBlocksPassed(f, p, r, k);
    forall j | 0 <= j <= k ensures r.blocks[j] == p.blocks[j] {
      assert r.blocks[..k + 1][j] == p.blocks[..k + 1][j];
    }
    assert r.turns[..l][..k] == r.turns[..k];
    assert LessAt(p.turns, r.turns[..l], k);
    LessApart(p.turns, r.turns[..l], k, [i], []);
    assert r.turns[..l] + [] == m[b].turns;
  }

  // ---- the order ----

  ghost predicate HasGreatest(f: Func, b: Block) {
    exists r :: Greatest(f, r, b)
  }

  ghost predicate Ascending(f: Func, a: Block, b: Block) {
    forall p, q :: Greatest(f, p, a) && Greatest(f, q, b) ==> Less(p.turns, q.turns)
  }

  /** The order lists the blocks that a route leads to, by their greatest routes. */
  ghost predicate ByRoutes(f: Func, order: seq<Block>) {
    && (forall b: Block :: b in order <==> HasGreatest(f, b))
    && forall i, j :: 0 <= i < j < |order| ==> Ascending(f, order[i], order[j])
  }

  ghost predicate NotesAscend(order: seq<Block>, m: Notes) {
    && (forall b :: b in order <==> b in m)
    && forall i, j :: 0 <= i < j < |order| ==>
         order[i] in m && order[j] in m && Less(m[order[i]].turns, m[order[j]].turns)
  }

  lemma SearchNotes(f: Func) returns (m: Notes)
    requires ValidTargets(f) && f != []
    ensures FullyNoted(f, m) && NotesAscend(BodyFirst(f), m)
  {
    hide ValidTargets, Searched, FromEntry, Fits, Routed, Noted, AllRoutes, FullyNoted, NotesAscend, Kept, Reversed;
    StartRouted(f);
    StartKept(f);
    m := SearchedRouted(f, FromEntry(), map[0 := Route([0], [])]);
    SearchedKeeps(f, FromEntry());
    DoneNotes(f, Searched(f, FromEntry()), m);
  }

  lemma DoneNotes(f: Func, s: Search, m: Notes)
    requires Routed(f, s, m) && Kept(f, s) && s.stack == []
    ensures FullyNoted(f, m) && NotesAscend(Reversed(s.post), m)
  {
    hide Successors, Below, Less, EdgeNoted, AllRoutes, Distinct, Fits, Looked, Followed, Chained, OnStack, DoneBeyond,
         LookedNoted, DoneDescends, Noted, NotesAscend;
    DoneMembers(s, m);
    DoneAscend(s.post, m);
    forall b, i: nat | b in m && b < |f| && i < |Successors(f[b])| ensures EdgeNoted(f, m, b, i) {
      DoneEdges(f, s, m, b, i);
    }
    StartNoted(f, s, m);
  }

  lemma DoneMembers(s: Search, m: Notes)
    requires m.Keys == s.visited && Noted(s) && s.stack == []
    ensures forall b :: b in s.post <==> b in m
  {
    hide Distinct;
    assert Blocks(s.stack) + s.post == s.post;
  }

  lemma DoneAscend(post: seq<Block>, m: Notes)
    requires DoneDescends(post, m) && forall b :: b in post <==> b in m
    ensures NotesAscend(Reversed(post), m)
  {
    hide Less, Reversed;
    var order := Reversed(post);
    forall b ensures b in order <==> b in m { ReversedMembers(post, b); }
    ReversedAt(post);
  }

  lemma ReversedAt(s: seq<Block>)
    ensures |Reversed(s)| == |s| && forall k :: 0 <= k < |s| ==> Reversed(s)[k] == s[|s| - 1 - k]
  {
  }

  lemma DoneEdges(f: Func, s: Search, m: Notes, b: Block, i: nat)
    requires Fits(f, s) && LookedNoted(f, s, m) && b in s.post && b < |f| && i < |Successors(f[b])|
    ensures EdgeNoted(f, m, b, i)
  {
    hide Successors, Below, EdgeNoted, TurnOf, EntryFits;
    WholeTurn(f, b);
    assert EdgesNoted(f, m, Entry(b, |Successors(f[b])|));
  }

  lemma WholeTurn(f: Func, b: Block)
    requires b < |f|
    ensures EntryFits(f, Entry(b, |Successors(f[b])|)) && TurnOf(f, Entry(b, |Successors(f[b])|)) == 0
  {
  }

  lemma StartNoted(f: Func, s: Search, m: Notes)
    requires Routed(f, s, m) && Kept(f, s) && s.stack == []
    ensures 0 in m && m[0].turns == []
  {
    hide Successors, Below, Less, IsTurn, Distinct, Followed, Looked, LookedNoted;
    assert s.post[|s.post| - 1] in m && 0 in m;
    assert IsRoute(f, m[0], 0);
  }

  lemma GreatestNoted(f: Func, m: Notes, r: Route, b: Block)
    requires FullyNoted(f, m) && Greatest(f, r, b)
    ensures b in m && m[b].turns == r.turns
  {
    hide Less, IsTurn;
    NotedGreatest(f, m, r, b);
    assert IsRoute(f, m[b], b);
    assert AtLeast(r.turns, m[b].turns);
    if m[b].turns != r.turns { LessOneWay(r.turns, m[b].turns); }
  }

  lemma NotedIsGreatest(f: Func, m: Notes, b: Block)
    requires FullyNoted(f, m) && b in m
    ensures Greatest(f, m[b], b)
  {
    hide AtLeast;
    forall q | IsRoute(f, q, b) ensures AtLeast(m[b].turns, q.turns) {
      NotedGreatest(f, m, q, b);
    }
  }

  /** The search puts the blocks in the order of their greatest routes. */
  lemma BodyFirstByRoutes(f: Func)
    requires ValidTargets(f) && f != []
    ensures ByRoutes(f, BodyFirst(f))
  {
    hide BodyFirst, ValidTargets, FullyNoted, Greatest, Less;
    var m := SearchNotes(f);
    var order := BodyFirst(f);
    forall b: Block ensures b in order <==> HasGreatest(f, b) {
      if b in order { NotedIsGreatest(f, m, b); }
      if r :| Greatest(f, r, b) { GreatestNoted(f, m, r, b); }
    }
    forall i, j | 0 <= i < j < |order| ensures Ascending(f, order[i], order[j]) {
      forall p, q | Greatest(f, p, order[i]) && Greatest(f, q, order[j]) ensures Less(p.turns, q.turns) {
        GreatestNoted(f, m, p, order[i]);
        GreatestNoted(f, m, q, order[j]);
      }
    }
  }

  lemma NotBothWays(f: Func, a: Block, b: Block)
    requires HasGreatest(f, a) && HasGreatest(f, b) && Ascending(f, a, b)
    ensures !Ascending(f, b, a)
  {
    hide Greatest, Less;
    var p :| Greatest(f, p, a);
    var q :| Greatest(f, q, b);
    LessOneWay(p.turns, q.turns);
  }

  /** A place of an ordered list holds no later block of it. */
  lemma PlaceOf(f: Func, order: seq<Block>, i: nat, j: nat)
    requires ByRoutes(f, order) && i < |order| && j < |order| && order[i] == order[j]
    ensures i == j
  {
    hide HasGreatest, Ascending;
    assert order[i] in order;
    if i != j { NotBothWays(f, order[i], order[j]); }
  }

  lemma {:induction false} SameUpTo(f: Func, a: seq<Block>, b: seq<Block>, k: nat)
    requires ByRoutes(f, a) && ByRoutes(f, b) && k <= |a|
    ensures k <= |b| && a[..k] == b[..k]
  {
    hide HasGreatest, Ascending;
    if k > 0 {
      SameUpTo(f, a, b, k - 1);
      var x := a[k - 1];
      assert x in a && x in b;
      var j :| 0 <= j < |b| && b[j] == x;
      if j < k - 1 { PlaceOf(f, a, j, k - 1); }
      var y := b[k - 1];
      assert y in b && y in a;
      var l :| 0 <= l < |a| && a[l] == y;
      if l < k - 1 { PlaceOf(f, b, l, k - 1); }
      if x != y { NotBothWays(f, x, y); }
    }
  }

  /** The graph alone decides the order. */
  lemma OneOrder(f: Func, a: seq<Block>, b: seq<Block>)
    requires ByRoutes(f, a) && ByRoutes(f, b)
    ensures a == b
  {
    hide ByRoutes;
    SameUpTo(f, a, b, |a|);
    SameUpTo(f, b, a, |b|);
  }

  /** A route from one of its blocks on. */
  lemma RouteLeads(f: Func, r: Route, a: Block, b: Block)
    requires IsRoute(f, r, a) && b in r.blocks && a < |f|
    ensures Reaches(f, b, a)
  {
    hide Successors, NoneTwice;
    var l :| 0 <= l < |r.blocks| && r.blocks[l] == b;
    var path := r.blocks[l..];
    forall k | 0 <= k < |path| ensures path[k] < |f| && (k < |path| - 1 ==> path[k + 1] in Successors(f[path[k]])) {
      if k < |path| - 1 { assert IsTurn(f, r.blocks[l + k], r.turns[l + k], r.blocks[l + k + 1]); }
    }
    assert IsPath(f, path) && path[0] == b && path[|path| - 1] == a;
  }

  /** An edge goes backward in the order only along a cycle. */
  lemma BackwardOnCycles(f: Func, i: nat, j: nat)
    requires ValidTargets(f)
    requires j <= i < |BodyFirst(f)| && BodyFirst(f)[i] < |f|
    requires BodyFirst(f)[j] in Successors(f[BodyFirst(f)[i]])
    ensures Reaches(f, BodyFirst(f)[j], BodyFirst(f)[i])
  {
    hide BodyFirst, ValidTargets, FullyNoted, Less, Successors, IsRoute, Reaches;
    var a, b := BodyFirst(f)[i], BodyFirst(f)[j];
    var m := SearchNotes(f);
    assert a in BodyFirst(f) && b in BodyFirst(f);
    var k :| 0 <= k < |Successors(f[a])| && Successors(f[a])[k] == b;
    EdgeOf(f, m, a, k, b);
    NotedIsRoute(f, m, a);
    if b !in m[a].blocks {
      LessLonger(m[a].turns, k);
      if m[b].turns != m[a].turns + [k] { LessTransitive(m[a].turns, m[a].turns + [k], m[b].turns); }
      LessOneWay(m[a].turns, m[b].turns);
    }
    RouteLeads(f, m[a], a, b);
  }

  lemma NotedIsRoute(f: Func, m: Notes, a: Block)
    requires FullyNoted(f, m) && a in m
    ensures IsRoute(f, m[a], a)
  {
  }

  /** A block that only b leads to, by a turn before turn j, has a route below those that take turn j at b. */
  lemma OnlyThrough(f: Func, m: Notes, b: Block, t: Block, j: nat)
    requires FullyNoted(f, m) && b in m && t in m && t != 0
    requires forall p: Block :: p < |f| && t in Successors(f[p]) ==> p == b
    requires forall i: nat :: IsTurn(f, b, i, t) ==> i < j
    ensures Less(m[t].turns, m[b].turns + [j])
  {
    hide FullyNoted, Less, Successors;
    NotedIsRoute(f, m, t);
    var r, a, i := RouteBefore(f, m[t], t);
    LastFrom(f, a, i, t);
    NotedGreatest(f, m, r, b);
    LessLast(r.turns, i, j);
    if r.turns != m[b].turns {
      NotedIsRoute(f, m, b);
      SameEnd(f, r, m[b], b);
      var k: nat :| LessAt(r.turns, m[b].turns, k) && k < |r.turns|;
      LessApart(r.turns, m[b].turns, k, [i], [j]);
    }
  }

  lemma LastFrom(f: Func, a: Block, i: nat, t: Block)
    requires IsTurn(f, a, i, t)
    ensures a < |f| && t in Successors(f[a])
  {
  }

  /** Of two successors of a block, the one listed earlier comes first, when no other block and no later
      place leads to it, unless the other one comes no later than the block itself. */
  lemma ListedOrder(f: Func, x: nat, i: nat, j: nat, y: nat, z: nat)
    requires ValidTargets(f) && x < |BodyFirst(f)| && BodyFirst(f)[x] < |f|
    requires y < |BodyFirst(f)| && IsTurn(f, BodyFirst(f)[x], i, BodyFirst(f)[y])
    requires z < |BodyFirst(f)| && IsTurn(f, BodyFirst(f)[x], j, BodyFirst(f)[z])
    requires forall p: Block :: p < |f| && BodyFirst(f)[y] in Successors(f[p]) ==> p == BodyFirst(f)[x]
    requires forall k: nat :: IsTurn(f, BodyFirst(f)[x], k, BodyFirst(f)[y]) ==> k < j
    ensures y < z || z <= x
  {
    hide BodyFirst, ValidTargets, FullyNoted, Less, Successors, IsTurn;
    var b, s, t := BodyFirst(f)[x], BodyFirst(f)[y], BodyFirst(f)[z];
    var m := SearchNotes(f);
    assert b in BodyFirst(f) && s in BodyFirst(f) && t in BodyFirst(f);
    EdgeOf(f, m, b, j, t);
    if t in m[b].blocks {
      EarlierOnRoute(f, m, b, t);
      if t != b { LessOneWay(m[t].turns, m[b].turns); } else if x < z { LessOneWay(m[b].turns, m[t].turns); }
    } else {
      SmallerThrough(f, m, b, s, t, j);
      LessOneWay(m[s].turns, m[t].turns);
    }
  }

  ghost predicate LastTurn(f: Func, b: Block, i: nat, t: Block) {
    IsTurn(f, b, i, t) && forall k: nat :: IsTurn(f, b, k, t) ==> k <= i
  }

  ghost predicate OnlyFrom(f: Func, b: Block, t: Block) {
    forall p: Block :: p < |f| && t in Successors(f[p]) ==> p == b
  }

  /** Of two blocks behind b that only b leads to, the one whose last place on its list is earlier comes first. */
  lemma LastPlaceDecides(f: Func, x: nat, y: nat, z: nat, i: nat, j: nat)
    requires ValidTargets(f) && x < y < |BodyFirst(f)| && x < z < |BodyFirst(f)| && y != z && BodyFirst(f)[x] < |f|
    requires LastTurn(f, BodyFirst(f)[x], i, BodyFirst(f)[y]) && OnlyFrom(f, BodyFirst(f)[x], BodyFirst(f)[y])
    requires LastTurn(f, BodyFirst(f)[x], j, BodyFirst(f)[z]) && OnlyFrom(f, BodyFirst(f)[x], BodyFirst(f)[z])
    ensures y < z <==> i < j
  {
    hide BodyFirst, ValidTargets, Successors;
    if i < j {
      ListedOrder(f, x, i, j, y, z);
    } else if j < i {
      ListedOrder(f, x, j, i, z, y);
    } else {
      SamePlace(f, y, z, BodyFirst(f)[x], i);
    }
  }

  lemma SamePlace(f: Func, y: nat, z: nat, b: Block, i: nat)
    requires ValidTargets(f) && y < |BodyFirst(f)| && z < |BodyFirst(f)|
    requires IsTurn(f, b, i, BodyFirst(f)[y]) && IsTurn(f, b, i, BodyFirst(f)[z])
    ensures y == z
  {
    hide ValidTargets, Successors;
    if y < z { DistinctIndices(BodyFirst(f), y, z); }
    if z < y { DistinctIndices(BodyFirst(f), z, y); }
  }

  /** A switch that lists block 1 on both sides of block 2. */
  function ListedTwice(): Func {
    [SwitchInt([Case(0, 1, []), Case(1, 2, [])], 1, []), Terminator.Return, Terminator.Return]
  }

  lemma ListedTwiceTurns()
    ensures var f := ListedTwice();
            && |f| == 3 && ValidTargets(f) && Successors(f[0]) == [1, 2, 1] && Successors(f[1]) == []
            && Successors(f[2]) == []
  {
    var f := ListedTwice();
    assert Successors(f[0]) == [1, 2, 1];
  }

  /** There block 2 comes before block 1, though block 1 is listed before it too. */
  lemma ListedTwiceOrder(y: nat, z: nat)
    requires ValidTargets(ListedTwice()) && y < |BodyFirst(ListedTwice())| && z < |BodyFirst(ListedTwice())|
    requires BodyFirst(ListedTwice())[y] == 2 && BodyFirst(ListedTwice())[z] == 1
    ensures y < z
  {
    hide BodyFirst, ListedTwice, Successors;
    var f := ListedTwice();
    ListedTwiceTurns();
    StartsAtZero(f);
    assert f[0] == f[BodyFirst(f)[0]];
    assert LastTurn(f, 0, 1, 2) && LastTurn(f, 0, 2, 1);
    LastPlaceDecides(f, 0, y, z, 1, 2);
  }

  lemma StartsAtZero(f: Func)
    requires ValidTargets(f) && f != []
    ensures BodyFirst(f) != [] && BodyFirst(f)[0] == 0
  {
  }

  lemma EarlierOnRoute(f: Func, m: Notes, b: Block, t: Block)
    requires FullyNoted(f, m) && b in m && t in m && t in m[b].blocks
    ensures t == b || Less(m[t].turns, m[b].turns)
  {
    hide IsTurn;
    var r := m[b];
    var l :| 0 <= l < |r.blocks| && r.blocks[l] == t;
    assert CutAt(m, b, l);
    if t != b { assert LessAt(r.turns[..l], r.turns, l); }
  }

  lemma SmallerThrough(f: Func, m: Notes, b: Block, s: Block, t: Block, j: nat)
    requires FullyNoted(f, m) && b in m && s in m && t in m && AtLeast(m[t].turns, m[b].turns + [j])
    requires forall p: Block :: p < |f| && s in Successors(f[p]) ==> p == b
    requires forall k: nat :: IsTurn(f, b, k, s) ==> k < j
    ensures Less(m[s].turns, m[t].turns)
  {
    hide Less, IsTurn, AllRoutes, Successors;
    if s == 0 {
      LessNonEmpty(m[t].turns, m[b].turns + [j]);
    } else {
      OnlyThrough(f, m, b, s, j);
      if m[t].turns != m[b].turns + [j] { LessTransitive(m[s].turns, m[b].turns + [j], m[t].turns); }
    }
  }

  // ---- the loop ----

  /** The body of the loop. */
  method Turn(f: Func, visited: set<Block>, stack: seq<Entry>, post: seq<Block>)
    returns (visited': set<Block>, stack': seq<Entry>, post': seq<Block>)
    requires ValidTargets(f) && Fits(f, Search(visited, stack, post)) && stack != []
    ensures Search(visited', stack', post') == Turned(f, Search(visited, stack, post))
  {
    hide ValidTargets, Below, Successors, EntryFits;
    visited', stack', post' := visited, stack, post;
    var rest, e := stack[..|stack| - 1], stack[|stack| - 1];
    EntryParts(f, e);
    if e.looked < |Successors(f[e.block])| {
      var t := NextOf(f, e);
      stack' := rest + [Entry(e.block, e.looked + 1)];
      if t !in visited {
        visited' := visited + {t};
        stack' := stack' + [Entry(t, 0)];
      }
    } else {
      post' := post + [e.block];
      stack' := rest;
    }
  }

  /** The loop itself: its order is the one the routes give. */
  method ReversePostOrder(f: Func) returns (order: seq<Block>)
    requires ValidTargets(f)
    ensures order == BodyFirst(f) && (f != [] ==> ByRoutes(f, order))
  {
    if f == [] {
      return [];
    }
    var visited: set<Block>, stack, post: seq<Block> := {0}, [Entry(0, 0)], [];
    StartFits(f);
    ghost var start := FromEntry();
    assert Search(visited, stack, post) == start;
    BodyFirstByRoutes(f);
    hide ValidTargets, Searched, Below, Successors, FromEntry, Fits, LeftOf, Turned, ByRoutes;
    while stack != []
      invariant Fits(f, Search(visited, stack, post))
      invariant Searched(f, Search(visited, stack, post)) == Searched(f, start)
      decreases |Below(|f|) - visited|, LeftOf(f, Search(visited, stack, post))
    {
      TurnedLess(f, Search(visited, stack, post));
      SearchedStep(f, Search(visited, stack, post));
      visited, stack, post := Turn(f, visited, stack, post);
    }
    SearchedStep(f, Search(visited, stack, post));
    return Reversed(post);
  }
}
