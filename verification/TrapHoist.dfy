/** Moving trap blocks before the joins their siblings reach. */
module TrapHoist {
  import opened Cfg
  import opened Sequences
  import opened Wrappers

  ghost predicate ValidTargets(f: Func) {
    forall b, s :: 0 <= b < |f| && s in Successors(f[b]) ==> s < |f|
  }

  predicate Within(f: Func, order: seq<Block>) {
    forall k :: 0 <= k < |order| ==> order[k] < |f|
  }

  ghost predicate Distinct(s: seq<Block>) {
    forall b :: b in s ==> multiset(s)[b] == 1
  }

  lemma DistinctIndices(s: seq<Block>, i: nat, j: nat)
    requires Distinct(s) && i < j < |s|
    ensures s[i] != s[j]
  {
    var head, tail := s[..j], s[j..];
    assert s == head + tail && tail[0] == s[j] && head[i] == s[i];
    assert multiset(s)[s[j]] == multiset(head)[s[j]] + multiset(tail)[s[j]];
    assert s[j] in multiset(tail) && s[i] in multiset(head);
  }

  // ---- reachability ----

  ghost predicate IsPath(f: Func, path: seq<Block>) {
    && path != []
    && (forall k :: 0 <= k < |path| ==> path[k] < |f|)
    && (forall k :: 0 <= k < |path| - 1 ==> path[k + 1] in Successors(f[path[k]]))
  }

  ghost predicate Reaches(f: Func, from: Block, to: Block) {
    exists path :: IsPath(f, path) && path[0] == from && path[|path| - 1] == to
  }

  /** The depth-first worklist: everything reachable from it, besides what was seen. */
  function Search(f: Func, work: seq<Block>, seen: set<Block>): (r: set<Block>)
    requires ValidTargets(f) && Within(f, work) && seen <= Below(|f|)
    ensures seen <= r && forall b :: b in work ==> b in r
    ensures r <= Below(|f|)
    decreases |Below(|f|) - seen|, |work|
  {
    if work == [] then seen
    else
      var b, rest := work[|work| - 1], work[..|work| - 1];
      assert work == rest + [b];
      if b in seen then Search(f, rest, seen)
      else
        Shrinks(|f|, seen, b);
        SuccessorsWithin(f, b);
        Search(f, rest + Successors(f[b]), seen + {b})
  }

  lemma SuccessorsWithin(f: Func, b: Block)
    requires ValidTargets(f) && b < |f|
    ensures Within(f, Successors(f[b]))
  {
    forall k | 0 <= k < |Successors(f[b])|
      ensures Successors(f[b])[k] < |f|
    {
      assert Successors(f[b])[k] in Successors(f[b]);
    }
  }

  function Below(n: nat): (r: set<Block>)
    ensures forall b: Block :: b in r <==> b < n
  {
    if n == 0 then {} else Below(n - 1) + {n - 1}
  }

  lemma Shrinks(n: nat, seen: set<Block>, b: Block)
    requires b < n && b !in seen
    ensures |Below(n) - (seen + {b})| < |Below(n) - seen|
  {
    assert Below(n) - seen == (Below(n) - (seen + {b})) + {b};
  }

  lemma {:induction false} SearchSound(f: Func, work: seq<Block>, seen: set<Block>, from: Block)
    requires ValidTargets(f) && Within(f, work) && seen <= Below(|f|)
    requires forall b :: b in work || b in seen ==> Reaches(f, from, b)
    ensures forall b :: b in Search(f, work, seen) ==> Reaches(f, from, b)
    decreases |Below(|f|) - seen|, |work|
  {
    hide Successors, Reaches, Below;
    if work != [] {
      var b, rest := work[|work| - 1], work[..|work| - 1];
      assert work == rest + [b];
      if b in seen {
        SearchSound(f, rest, seen, from);
      } else {
        Shrinks(|f|, seen, b);
        SuccessorsWithin(f, b);
        forall s | s in Successors(f[b])
          ensures Reaches(f, from, s)
        {
          ReachesStep(f, from, b, s);
        }
        SearchSound(f, rest + Successors(f[b]), seen + {b}, from);
      }
    }
  }

  lemma ReachesStep(f: Func, from: Block, b: Block, s: Block)
    requires ValidTargets(f) && Reaches(f, from, b) && b < |f| && s in Successors(f[b])
    ensures Reaches(f, from, s)
  {
    var path :| IsPath(f, path) && path[0] == from && path[|path| - 1] == b;
    var longer := path + [s];
    assert IsPath(f, longer) && longer[0] == from && longer[|longer| - 1] == s;
  }

  ghost predicate Frontier(f: Func, seen: set<Block>, work: seq<Block>) {
    forall b, s :: b in seen && b < |f| && s in Successors(f[b]) ==> s in seen || s in work
  }

  lemma FrontierPush(f: Func, seen: set<Block>, rest: seq<Block>, b: Block)
    requires b < |f| && Frontier(f, seen, rest + [b])
    ensures b in seen ==> Frontier(f, seen, rest)
    ensures Frontier(f, seen + {b}, rest + Successors(f[b]))
  {
    hide Successors;
  }

  lemma {:induction false} SearchClosed(f: Func, work: seq<Block>, seen: set<Block>)
    requires ValidTargets(f) && Within(f, work) && seen <= Below(|f|) && Frontier(f, seen, work)
    ensures Frontier(f, Search(f, work, seen), [])
    decreases |Below(|f|) - seen|, |work|
  {
    hide Frontier, Successors, Below;
    if work == [] {
      assert work == [];
    } else {
      var b, rest := work[|work| - 1], work[..|work| - 1];
      assert work == rest + [b];
      FrontierPush(f, seen, rest, b);
      if b in seen {
        SearchClosed(f, rest, seen);
      } else {
        Shrinks(|f|, seen, b);
        SuccessorsWithin(f, b);
        SearchClosed(f, rest + Successors(f[b]), seen + {b});
      }
    }
  }

  /** The search finds exactly the blocks a path leads to. */
  lemma SearchExact(f: Func, from: Block, b: Block)
    requires ValidTargets(f) && from < |f|
    ensures b in Search(f, [from], {}) <==> Reaches(f, from, b)
  {
    assert IsPath(f, [from]) && [from][0] == from;
    SearchSound(f, [from], {}, from);
    SearchClosed(f, [from], {});
    if Reaches(f, from, b) {
      var path :| IsPath(f, path) && path[0] == from && path[|path| - 1] == b;
      for k := 0 to |path| - 1
        invariant path[k] in Search(f, [from], {})
      {
      }
    }
  }

  // ---- candidates ----

  /** Length of the predecessor list: one entry for each edge. */
  function PredCount(f: Func, b: Block): nat {
    if f == [] then 0 else PredCount(f[..|f| - 1], b) + Count(Successors(f[|f| - 1]), b)
  }

  /** Block w is a join that a sibling of u reaches, from a common predecessor among `before`. */
  predicate Joins(f: Func, before: seq<Block>, u: Block, w: Block)
    requires ValidTargets(f) && Within(f, before)
  {
    w != u && PredCount(f, w) > 1 && exists p :: 0 <= p < |before| && Sibling(f, before[p], u, w)
  }

  /** Position idx, at or before the cursor, holds such a join for the block at the cursor. */
  predicate JoinAt(f: Func, order: seq<Block>, cursor: nat, idx: nat)
    requires ValidTargets(f) && cursor < |order| && idx <= cursor && Within(f, order)
  {
    Joins(f, order[..idx], order[cursor], order[idx])
  }

  predicate Sibling(f: Func, pred: Block, u: Block, join: Block)
    requires ValidTargets(f) && pred < |f|
  {
    && u in Successors(f[pred]) && |Successors(f[pred])| >= 2
    && exists s :: s in Successors(f[pred]) && s != u && join in Search(f, [s], {})
  }

  /** No such position from lo to hi. */
  ghost predicate NoJoin(f: Func, order: seq<Block>, cursor: nat, lo: nat, hi: nat)
    requires ValidTargets(f) && cursor < |order| && hi <= cursor + 1 && Within(f, order)
  {
    forall k :: lo <= k < hi ==> !JoinAt(f, order, cursor, k)
  }

  /** The first such position from idx on. */
  function Candidate(f: Func, order: seq<Block>, cursor: nat, idx: nat): (r: Option<nat>)
    requires ValidTargets(f) && cursor < |order| && idx <= cursor + 1 && Within(f, order)
    ensures r.Some? ==> idx <= r.value <= cursor
    decreases cursor + 1 - idx
  {
    if idx > cursor then None
    else if JoinAt(f, order, cursor, idx) then Some(idx)
    else Candidate(f, order, cursor, idx + 1)
  }

  /** It is such a position, and there is none before it. */
  lemma {:induction false} CandidateFirst(f: Func, order: seq<Block>, cursor: nat, idx: nat)
    requires ValidTargets(f) && cursor < |order| && idx <= cursor + 1 && Within(f, order)
    ensures var r := Candidate(f, order, cursor, idx);
            && (r.Some? ==> JoinAt(f, order, cursor, r.value) && NoJoin(f, order, cursor, idx, r.value))
            && (r.None? ==> NoJoin(f, order, cursor, idx, cursor + 1))
    decreases cursor + 1 - idx
  {
    hide JoinAt, Within, ValidTargets;
    if idx <= cursor && !JoinAt(f, order, cursor, idx) {
      CandidateFirst(f, order, cursor, idx + 1);
    }
  }

  /** The element at `from` taken out and put back at `to`. */
  function Moved(order: seq<Block>, from: nat, to: nat): (r: seq<Block>)
    requires to <= from < |order|
    ensures |r| == |order|
  {
    order[..to] + [order[from]] + order[to..from] + order[from + 1..]
  }

  /** One turn of the loop: the cursor stays after a move. */
  datatype State = State(order: seq<Block>, cursor: nat)

  function Turn(f: Func, st: State): State
    requires ValidTargets(f) && st.cursor < |st.order| && Within(f, st.order)
  {
    if !f[st.order[st.cursor]].Unreachable? then st.(cursor := st.cursor + 1)
    else
      match Candidate(f, st.order, st.cursor, 0)
      case None => st.(cursor := st.cursor + 1)
      case Some(idx) => st.(order := Moved(st.order, st.cursor, idx))
  }

  // ---- what a move keeps ----

  /** The blocks that do not trap, in order. */
  function Others(f: Func, order: seq<Block>): seq<Block>
    requires Within(f, order)
  {
    if order == [] then []
    else
      (if f[order[0]].Unreachable? then [] else [order[0]]) + Others(f, order[1..])
  }

  lemma {:induction false} OthersConcat(f: Func, a: seq<Block>, b: seq<Block>)
    requires Within(f, a) && Within(f, b)
    ensures Within(f, a + b)
    ensures Others(f, a + b) == Others(f, a) + Others(f, b)
  {
    if a == [] {
      assert a + b == b;
    } else {
      assert (a + b)[1..] == a[1..] + b && (a + b)[0] == a[0];
      OthersConcat(f, a[1..], b);
      var first := if f[a[0]].Unreachable? then [] else [a[0]];
      assert first + (Others(f, a[1..]) + Others(f, b)) == first + Others(f, a[1..]) + Others(f, b);
    }
  }

  /** How many non-trap blocks come before each trap block, added up. */
  function Inversions(f: Func, order: seq<Block>, before: nat): nat
    requires Within(f, order)
  {
    if order == [] then 0
    else
      if f[order[0]].Unreachable? then before + Inversions(f, order[1..], before)
      else Inversions(f, order[1..], before + 1)
  }

  lemma {:induction false} InversionsConcat(f: Func, a: seq<Block>, b: seq<Block>, before: nat)
    requires Within(f, a) && Within(f, b)
    ensures Within(f, a + b)
    ensures Inversions(f, a + b, before) == Inversions(f, a, before) + Inversions(f, b, before + |Others(f, a)|)
  {
    if a == [] {
      assert a + b == b;
    } else {
      assert (a + b)[1..] == a[1..] + b;
      InversionsConcat(f, a[1..], b, if f[a[0]].Unreachable? then before else before + 1);
    }
  }

  lemma OthersSwap(f: Func, a: seq<Block>, m: seq<Block>, u: seq<Block>, z: seq<Block>)
    requires Within(f, a) && Within(f, m) && Within(f, u) && Within(f, z) && Others(f, u) == []
    ensures Within(f, a + (u + (m + z))) && Within(f, a + (m + (u + z)))
    ensures Others(f, a + (u + (m + z))) == Others(f, a + (m + (u + z)))
  {
    hide Others, Within;
    OthersConcat(f, u, z);
    OthersConcat(f, m, u + z);
    OthersConcat(f, a, m + (u + z));
    OthersConcat(f, m, z);
    OthersConcat(f, u, m + z);
    OthersConcat(f, a, u + (m + z));
  }

  lemma InversionsSwap(f: Func, a: seq<Block>, m: seq<Block>, u: seq<Block>, z: seq<Block>)
    requires Within(f, a) && Within(f, m) && Within(f, u) && Within(f, z) && |u| == 1 && f[u[0]].Unreachable?
    ensures Within(f, a + (u + (m + z))) && Within(f, a + (m + (u + z)))
    ensures Inversions(f, a + (m + (u + z)), 0) == Inversions(f, a + (u + (m + z)), 0) + |Others(f, m)|
  {
    var na, nm := |Others(f, a)|, |Others(f, m)|;
    TrapAlone(f, u, na);
    TrapAlone(f, u, na + nm);
    hide Others, Inversions, Within;
    InversionsConcat(f, u, z, na + nm);
    InversionsConcat(f, m, u + z, na);
    InversionsConcat(f, a, m + (u + z), 0);
    InversionsConcat(f, m, z, na);
    InversionsConcat(f, u, m + z, na);
    InversionsConcat(f, a, u + (m + z), 0);
  }

  lemma TrapAlone(f: Func, u: seq<Block>, before: nat)
    requires Within(f, u) && |u| == 1 && f[u[0]].Unreachable?
    ensures Others(f, u) == [] && Inversions(f, u, before) == before
  {
  }

  lemma MovedSplits(order: seq<Block>, from: nat, to: nat)
    requires to <= from < |order|
    ensures order == order[..to] + (order[to..from] + ([order[from]] + order[from + 1..]))
    ensures Moved(order, from, to) == order[..to] + ([order[from]] + (order[to..from] + order[from + 1..]))
  {
  }

  lemma MovedKeeps(f: Func, order: seq<Block>, from: nat, to: nat)
    requires Within(f, order) && to <= from < |order| && f[order[from]].Unreachable?
    ensures Within(f, Moved(order, from, to))
    ensures Others(f, Moved(order, from, to)) == Others(f, order)
    ensures Inversions(f, order, 0)
         == Inversions(f, Moved(order, from, to), 0) + |Others(f, order[to..from])|
  {
    var a, u, m, z := order[..to], [order[from]], order[to..from], order[from + 1..];
    MovedSplits(order, from, to);
    TrapAlone(f, u, 0);
    hide Others, Inversions, Moved;
    OthersSwap(f, a, m, u, z);
    InversionsSwap(f, a, m, u, z);
  }

  lemma MovedMultiset(order: seq<Block>, from: nat, to: nat)
    requires to <= from < |order|
    ensures multiset(Moved(order, from, to)) == multiset(order)
  {
    MovedSplits(order, from, to);
    hide Moved;
  }

  /** Every block but the first follows one of its predecessors. */
  ghost predicate Entered(f: Func, order: seq<Block>) {
    forall i :: 0 < i < |order| ==> EnteredAt(f, order, i)
  }

  ghost predicate EnteredAt(f: Func, order: seq<Block>, i: nat)
    requires i < |order|
  {
    exists j :: 0 <= j < i && order[j] < |f| && order[i] in Successors(f[order[j]])
  }

  /** A block goes only to a place behind one of its predecessors. */
  lemma MovedEntered(f: Func, order: seq<Block>, from: nat, to: nat)
    requires ValidTargets(f) && Within(f, order) && to <= from < |order| && JoinAt(f, order, from, to)
    requires Entered(f, order)
    ensures Entered(f, Moved(order, from, to))
  {
    hide PredCount, ValidTargets, Successors, Search;
    var r := Moved(order, from, to);
    var p :| 0 <= p < to && Sibling(f, order[p], order[from], order[to]);
    forall i | 0 < i < |r|
      ensures EnteredAt(f, r, i)
    {
      if i == to {
        assert r[p] == order[p] && r[to] == order[from];
      } else {
        var was := if to < i <= from then i - 1 else i;
        assert r[i] == order[was] && EnteredAt(f, order, was);
        var j :| 0 <= j < was && order[j] < |f| && order[was] in Successors(f[order[j]]);
        var now := if j == from then to else if to <= j < from then j + 1 else j;
        assert r[now] == order[j];
      }
    }
  }

  // ---- many turns ----

  function Turns(f: Func, st: State, n: nat): State
    requires ValidTargets(f) && Within(f, st.order)
    decreases n
  {
    if n == 0 || st.cursor >= |st.order| then st
    else
      var next := Turn(f, st);
      TurnWithin(f, st);
      Turns(f, next, n - 1)
  }

  lemma TurnWithin(f: Func, st: State)
    requires ValidTargets(f) && st.cursor < |st.order| && Within(f, st.order)
    ensures Within(f, Turn(f, st).order)
  {
    if f[st.order[st.cursor]].Unreachable? {
      var c := Candidate(f, st.order, st.cursor, 0);
      if c.Some? {
        MovedKeeps(f, st.order, st.cursor, c.value);
      }
    }
  }

  lemma {:induction false} TurnsAdd(f: Func, st: State, m: nat, n: nat)
    requires ValidTargets(f) && Within(f, st.order)
    ensures Within(f, Turns(f, st, m).order)
    ensures Turns(f, st, m + n) == Turns(f, Turns(f, st, m), n)
    decreases m
  {
    hide Turn, ValidTargets, Within;
    if m > 0 && st.cursor < |st.order| {
      TurnWithin(f, st);
      TurnsAdd(f, Turn(f, st), m - 1, n);
    }
  }

  lemma TurnsOne(f: Func, st: State)
    requires ValidTargets(f) && Within(f, st.order) && st.cursor < |st.order|
    ensures Within(f, Turn(f, st).order) && Turns(f, st, 1) == Turn(f, st)
  {
    hide Turn, ValidTargets, Within;
    TurnWithin(f, st);
    assert Turns(f, Turn(f, st), 0) == Turn(f, st);
  }

  // ---- where the traps end up ----

  ghost predicate IsEdge(f: Func, a: Block, i: nat, w: Block) {
    a < |f| && i < |Successors(f[a])| && Successors(f[a])[i] == w
  }

  /** Two edges lead to the block. */
  ghost predicate IsJoin(f: Func, w: Block) {
    exists a: Block, i: nat, c: Block, j: nat :: IsEdge(f, a, i, w) && IsEdge(f, c, j, w) && (a != c || i != j)
  }

  ghost predicate HasEdge(f: Func, w: Block) {
    exists a: Block, i: nat :: IsEdge(f, a, i, w)
  }

  ghost predicate Twice(s: seq<Block>, w: Block) {
    exists i, j :: 0 <= i < j < |s| && s[i] == w && s[j] == w
  }

  lemma {:induction false} CountedTwice(s: seq<Block>, w: Block)
    ensures Count(s, w) > 1 <==> Twice(s, w)
  {
    if s != [] {
      var n := |s| - 1;
      var init := s[..n];
      CountedTwice(init, w);
      CountIn(init, w);
      assert forall k :: 0 <= k < n ==> init[k] == s[k];
      if i, j :| 0 <= i < j < n && init[i] == w && init[j] == w { assert s[i] == w && s[j] == w; }
    }
  }

  /** The edges of the blocks before the last one, and its own. */
  lemma EdgeStep(f: Func, w: Block, a: Block, i: nat)
    requires f != []
    ensures var n := |f| - 1;
            IsEdge(f, a, i, w) <==>
              IsEdge(f[..n], a, i, w) || (a == n && i < |Successors(f[n])| && Successors(f[n])[i] == w)
  {
    hide Successors;
  }

  lemma HasEdgeStep(f: Func, w: Block)
    requires f != []
    ensures HasEdge(f, w) <==> HasEdge(f[..|f| - 1], w) || w in Successors(f[|f| - 1])
  {
    hide Successors, IsEdge;
    var n := |f| - 1;
    if a: Block, i: nat :| IsEdge(f, a, i, w) { EdgeStep(f, w, a, i); }
    if a: Block, i: nat :| IsEdge(f[..n], a, i, w) { EdgeStep(f, w, a, i); }
    if w in Successors(f[n]) {
      var i: nat :| i < |Successors(f[n])| && Successors(f[n])[i] == w;
      EdgeStep(f, w, n, i);
    }
  }

  lemma {:induction false} EdgeCounted(f: Func, w: Block)
    ensures PredCount(f, w) > 0 <==> HasEdge(f, w)
  {
    hide Successors, Count, HasEdge;
    if f == [] {
      assert !HasEdge(f, w) by { NoBlocks(f, w); }
    } else {
      EdgeCounted(f[..|f| - 1], w);
      CountIn(Successors(f[|f| - 1]), w);
      HasEdgeStep(f, w);
    }
  }

  lemma NoBlocks(f: Func, w: Block)
    requires f == []
    ensures !HasEdge(f, w) && !IsJoin(f, w)
  {
  }

  lemma JoinStep(f: Func, w: Block)
    requires f != []
    ensures var n := |f| - 1;
            IsJoin(f, w) <==>
              IsJoin(f[..n], w) || (HasEdge(f[..n], w) && w in Successors(f[n])) || Twice(Successors(f[n]), w)
  {
    hide Successors, IsEdge;
    var n := |f| - 1;
    forall a: Block, i: nat
      ensures IsEdge(f, a, i, w) <==>
                IsEdge(f[..n], a, i, w) || (a == n && i < |Successors(f[n])| && Successors(f[n])[i] == w)
      ensures IsEdge(f[..n], a, i, w) ==> a < n
    {
      EdgeStep(f, w, a, i);
      EdgeSource(f[..n], w, a, i);
    }
    if HasEdge(f[..n], w) && w in Successors(f[n]) {
      var a: Block, i: nat :| IsEdge(f[..n], a, i, w);
      var j: nat :| j < |Successors(f[n])| && Successors(f[n])[j] == w;
      assert IsEdge(f, a, i, w) && IsEdge(f, n, j, w);
    }
    if Twice(Successors(f[n]), w) {
      var i: nat, j: nat :| i < j < |Successors(f[n])| && Successors(f[n])[i] == w && Successors(f[n])[j] == w;
      assert IsEdge(f, n, i, w) && IsEdge(f, n, j, w);
    }
  }

  lemma EdgeSource(f: Func, w: Block, a: Block, i: nat)
    ensures IsEdge(f, a, i, w) ==> a < |f|
  {
  }

  /** The predecessor list is longer than one exactly for a join. */
  lemma {:induction false} JoinCounted(f: Func, w: Block)
    ensures PredCount(f, w) > 1 <==> IsJoin(f, w)
  {
    hide Successors, Count, IsJoin, HasEdge, Twice;
    if f == [] {
      NoBlocks(f, w);
    } else {
      var n := |f| - 1;
      JoinCounted(f[..n], w);
      EdgeCounted(f[..n], w);
      CountIn(Successors(f[n]), w);
      CountedTwice(Successors(f[n]), w);
      JoinStep(f, w);
    }
  }

  /** Block p leads to u, and by another edge to a join w. */
  ghost predicate Rejoins(f: Func, p: Block, u: Block, w: Block) {
    && p < |f| && u in Successors(f[p]) && IsJoin(f, w)
    && exists s :: s in Successors(f[p]) && s != u && Reaches(f, s, w)
  }

  ghost predicate InFront(f: Func, order: seq<Block>, i: nat, j: nat, k: nat)
    requires Within(f, order) && i < j < k < |order|
  {
    f[order[k]].Unreachable? && !f[order[j]].Unreachable? ==> !Rejoins(f, order[i], order[k], order[j])
  }

  /** Among the first n blocks, no trap comes behind a join that another arm of its predecessor reaches. */
  ghost predicate TrapsFirst(f: Func, order: seq<Block>, n: nat)
    requires Within(f, order) && n <= |order|
  {
    forall i: nat, j: nat, k: nat :: i < j < k < n ==> InFront(f, order, i, j, k)
  }

  lemma RejoinsJoins(f: Func, order: seq<Block>, i: nat, j: nat, cursor: nat)
    requires ValidTargets(f) && Within(f, order) && i < j < cursor < |order|
    requires !JoinAt(f, order, cursor, j) && f[order[cursor]].Unreachable? && !f[order[j]].Unreachable?
    ensures !Rejoins(f, order[i], order[cursor], order[j])
  {
    hide Successors, Search, PredCount, Reaches, Sibling;
    var p, u, w := order[i], order[cursor], order[j];
    assert order[..j][i] == p;
    JoinCounted(f, w);
    SiblingExactly(f, p, u, w);
  }

  lemma SiblingExactly(f: Func, p: Block, u: Block, w: Block)
    requires ValidTargets(f) && p < |f|
    ensures Sibling(f, p, u, w) <==>
              u in Successors(f[p]) && exists s :: s in Successors(f[p]) && s != u && Reaches(f, s, w)
  {
    hide Successors, Search, Reaches, ValidTargets;
    forall s | s in Successors(f[p])
      ensures s < |f| && (w in Search(f, [s], {}) <==> Reaches(f, s, w))
      ensures u in Successors(f[p]) && s != u ==> |Successors(f[p])| >= 2
    {
      TargetWithin(f, p, s);
      SearchExact(f, s, w);
      if u in Successors(f[p]) && s != u { TwoSuccessors(Successors(f[p]), u, s); }
    }
  }

  lemma TargetWithin(f: Func, p: Block, s: Block)
    requires ValidTargets(f) && p < |f| && s in Successors(f[p])
    ensures s < |f|
  {
  }

  lemma TwoSuccessors(ts: seq<Block>, u: Block, s: Block)
    requires u in ts && s in ts && s != u
    ensures |ts| >= 2
  {
  }

  lemma TrapStays(f: Func, order: seq<Block>, cursor: nat)
    requires ValidTargets(f) && Within(f, order) && cursor < |order| && TrapsFirst(f, order, cursor)
    requires f[order[cursor]].Unreachable? ==> NoJoin(f, order, cursor, 0, cursor + 1)
    ensures TrapsFirst(f, order, cursor + 1)
  {
    hide Rejoins, JoinAt, ValidTargets;
    forall i: nat, j: nat, k: nat | i < j < k < cursor + 1 ensures InFront(f, order, i, j, k) {
      if k == cursor && f[order[k]].Unreachable? && !f[order[j]].Unreachable? {
        RejoinsJoins(f, order, i, j, cursor);
      }
    }
  }

  lemma TrapMoves(f: Func, order: seq<Block>, cursor: nat, to: nat)
    requires ValidTargets(f) && Within(f, order) && to <= cursor < |order| && TrapsFirst(f, order, cursor)
    requires f[order[cursor]].Unreachable? && NoJoin(f, order, cursor, 0, to)
    ensures Within(f, Moved(order, cursor, to)) && TrapsFirst(f, Moved(order, cursor, to), cursor)
  {
    hide Rejoins, JoinAt, ValidTargets, Successors;
    var r := Moved(order, cursor, to);
    MovedKeeps(f, order, cursor, to);
    forall i: nat, j: nat, k: nat | i < j < k < cursor ensures InFront(f, r, i, j, k) {
      TrapLeadsNowhere(f, r[to], r[k], r[j]);
      var i', j', k' := if i < to then i else i - 1, if j < to then j else j - 1, if k < to then k else k - 1;
      if k == to {
        if !f[order[j]].Unreachable? { RejoinsJoins(f, order, i, j, cursor); }
      } else if i != to && j != to {
        assert InFront(f, order, i', j', k');
        assert r[i] == order[i'] && r[j] == order[j'] && r[k] == order[k'];
      }
    }
  }

  lemma TrapLeadsNowhere(f: Func, p: Block, u: Block, w: Block)
    requires p < |f|
    ensures f[p].Unreachable? ==> !Rejoins(f, p, u, w)
  {
  }

  /** A block before place j leads to u, and by another edge to the join at place j. */
  ghost predicate JoinsBefore(f: Func, order: seq<Block>, u: Block, j: nat)
    requires j < |order|
  {
    order[j] != u && exists i :: 0 <= i < j && Rejoins(f, order[i], u, order[j])
  }

  lemma JoinsExactly(f: Func, order: seq<Block>, cursor: nat, j: nat)
    requires ValidTargets(f) && Within(f, order) && j <= cursor < |order|
    ensures JoinAt(f, order, cursor, j) <==> JoinsBefore(f, order, order[cursor], j)
  {
    hide Successors, Search, PredCount, Reaches, Sibling;
    var u, w := order[cursor], order[j];
    JoinCounted(f, w);
    forall i | 0 <= i < j
      ensures order[..j][i] == order[i]
      ensures PredCount(f, w) > 1 && Sibling(f, order[i], u, w) <==> Rejoins(f, order[i], u, w)
    {
      SiblingExactly(f, order[i], u, w);
    }
  }

  /** One turn: a trap goes right in front of the first join at or before it that another arm of one of its
      predecessors leads to, the predecessor coming earlier still; the cursor then stays. */
  lemma TurnExactly(f: Func, st: State)
    requires ValidTargets(f) && Within(f, st.order) && st.cursor < |st.order|
    ensures var u, now := st.order[st.cursor], Turn(f, st);
            if f[u].Unreachable? && exists j :: 0 <= j <= st.cursor && JoinsBefore(f, st.order, u, j) then
              && now.cursor == st.cursor
              && exists j :: 0 <= j < st.cursor && JoinsBefore(f, st.order, u, j)
                   && (forall i :: 0 <= i < j ==> !JoinsBefore(f, st.order, u, i))
                   && now.order == st.order[..j] + [u] + st.order[j..st.cursor] + st.order[st.cursor + 1..]
            else now == State(st.order, st.cursor + 1)
  {
    hide JoinAt, JoinsBefore, ValidTargets;
    var u := st.order[st.cursor];
    CandidateFirst(f, st.order, st.cursor, 0);
    forall j: nat | j <= st.cursor
      ensures JoinAt(f, st.order, st.cursor, j) <==> JoinsBefore(f, st.order, u, j)
    {
      JoinsExactly(f, st.order, st.cursor, j);
    }
    NotItself(f, st.order, st.cursor);
  }

  lemma NotItself(f: Func, order: seq<Block>, cursor: nat)
    requires cursor < |order|
    ensures !JoinsBefore(f, order, order[cursor], cursor)
  {
  }
}
