/** The order the blocks are first put in: reverse post-order of a depth-first search that looks at the
    last successor first. */
module SearchOrder {
  import opened Cfg
  import opened TrapHoist

  /** A block the search has entered, and how many of its successors it has looked at. */
  datatype Entry = Entry(block: Block, looked: nat)

  datatype Search = Search(visited: set<Block>, stack: seq<Entry>, post: seq<Block>)

  ghost predicate EntryFits(f: Func, e: Entry) {
    e.block < |f| && e.looked <= |Successors(f[e.block])|
  }

  ghost predicate Fits(f: Func, s: Search) {
    s.visited <= Below(|f|) && forall k :: 0 <= k < |s.stack| ==> EntryFits(f, s.stack[k])
  }

  /** The successor looked at next, from the last to the first. */
  function NextOf(f: Func, e: Entry): Block
    requires e.block < |f| && e.looked < |Successors(f[e.block])|
  {
    Successors(f[e.block])[|Successors(f[e.block])| - 1 - e.looked]
  }

  /** One turn of the loop. */
  function Turned(f: Func, s: Search): Search
    requires ValidTargets(f) && Fits(f, s) && s.stack != []
  {
    var rest, e := s.stack[..|s.stack| - 1], s.stack[|s.stack| - 1];
    if e.looked < |Successors(f[e.block])| then
      var t := NextOf(f, e);
      var more := rest + [Entry(e.block, e.looked + 1)];
      if t in s.visited then s.(stack := more)
      else Search(s.visited + {t}, more + [Entry(t, 0)], s.post)
    else Search(s.visited, rest, s.post + [e.block])
  }

  /** What is left to look at. */
  ghost function Left(f: Func, stack: seq<Entry>): nat
    requires forall k :: 0 <= k < |stack| ==> EntryFits(f, stack[k])
  {
    if stack == [] then 0
    else
      var e := stack[|stack| - 1];
      assert EntryFits(f, e);
      Left(f, stack[..|stack| - 1]) + |Successors(f[e.block])| - e.looked + 1
  }

  ghost function LeftOf(f: Func, s: Search): nat
    requires Fits(f, s)
  {
    Left(f, s.stack)
  }

  lemma LeftLast(f: Func, rest: seq<Entry>, e: Entry)
    requires (forall k :: 0 <= k < |rest| ==> EntryFits(f, rest[k])) && EntryFits(f, e)
    ensures forall k :: 0 <= k < |rest + [e]| ==> EntryFits(f, (rest + [e])[k])
    ensures Left(f, rest + [e]) == Left(f, rest) + |Successors(f[e.block])| - e.looked + 1
  {
    assert (rest + [e])[..|rest|] == rest;
  }

  lemma TopFits(f: Func, s: Search)
    requires Fits(f, s) && s.stack != []
    ensures EntryFits(f, s.stack[|s.stack| - 1])
    ensures var rest := s.stack[..|s.stack| - 1]; forall k :: 0 <= k < |rest| ==> EntryFits(f, rest[k])
  {
  }

  lemma NextBelow(f: Func, e: Entry)
    requires ValidTargets(f) && EntryFits(f, e) && e.looked < |Successors(f[e.block])|
    ensures NextOf(f, e) < |f| && NextOf(f, e) in Successors(f[e.block])
  {
    hide Successors;
    assert NextOf(f, e) in Successors(f[e.block]);
  }

  lemma TurnedFits(f: Func, s: Search)
    requires ValidTargets(f) && Fits(f, s) && s.stack != []
    ensures Fits(f, Turned(f, s))
  {
    hide Successors, Below, ValidTargets;
    var e := s.stack[|s.stack| - 1];
    TopFits(f, s);
    if e.looked < |Successors(f[e.block])| { NextBelow(f, e); }
  }

  lemma TurnedLess(f: Func, s: Search)
    requires ValidTargets(f) && Fits(f, s) && s.stack != []
    ensures Fits(f, Turned(f, s))
    ensures |Below(|f|) - Turned(f, s).visited| < |Below(|f|) - s.visited|
         || (Turned(f, s).visited == s.visited && LeftOf(f, Turned(f, s)) < LeftOf(f, s))
  {
    hide Successors, Below, ValidTargets, EntryFits, Left;
    var rest, e := s.stack[..|s.stack| - 1], s.stack[|s.stack| - 1];
    assert s.stack == rest + [e];
    TopFits(f, s);
    TurnedFits(f, s);
    LeftLast(f, rest, e);
    if e.looked < |Successors(f[e.block])| {
      NextBelow(f, e);
      assert EntryFits(f, Entry(e.block, e.looked + 1)) by { NextFits(f, e); }
      LeftLast(f, rest, Entry(e.block, e.looked + 1));
      if NextOf(f, e) !in s.visited {
        Shrinks(|f|, s.visited, NextOf(f, e));
      }
    }
  }

  lemma NextFits(f: Func, e: Entry)
    requires EntryFits(f, e) && e.looked < |Successors(f[e.block])|
    ensures EntryFits(f, Entry(e.block, e.looked + 1))
  {
  }

  /** The loop run to its end. */
  function Searched(f: Func, s: Search): (r: Search)
    requires ValidTargets(f) && Fits(f, s)
    decreases |Below(|f|) - s.visited|, LeftOf(f, s)
  {
    if s.stack == [] then s
    else
      TurnedLess(f, s);
      Searched(f, Turned(f, s))
  }

  function Reversed(s: seq<Block>): seq<Block> {
    seq(|s|, k requires 0 <= k < |s| => s[|s| - 1 - k])
  }

  function FromEntry(): Search {
    Search({0}, [Entry(0, 0)], [])
  }

  /** The order of the search from block 0: it starts there, holds each block once and with it its
      successors, and each other block follows one of its predecessors. */
  function BodyFirst(f: Func): (order: seq<Block>)
    requires ValidTargets(f)
    ensures Within(f, order) && Closed(f, order) && Distinct(order) && Entered(f, order)
    ensures (f == [] <==> order == []) && (f != [] ==> order[0] == 0)
  {
    if f == [] then []
    else
      SearchedOrder(f);
      Reversed(Searched(f, FromEntry()).post)
  }

  lemma StartFits(f: Func)
    requires f != []
    ensures Fits(f, FromEntry())
  {
  }

  lemma SearchedStep(f: Func, s: Search)
    requires ValidTargets(f) && Fits(f, s)
    ensures s.stack == [] ==> Searched(f, s) == s
    ensures s.stack != [] ==> Fits(f, Turned(f, s)) && Searched(f, s) == Searched(f, Turned(f, s))
  {
    if s.stack != [] { TurnedFits(f, s); }
  }

  /** A turn that enters block t. */
  lemma SearchedPush(f: Func, visited: set<Block>, rest: seq<Entry>, e: Entry, post: seq<Block>, t: Block)
    requires ValidTargets(f) && Fits(f, Search(visited, rest + [e], post)) && e.block < |f|
    requires e.looked < |Successors(f[e.block])| && NextOf(f, e) == t && t !in visited
    ensures var s := Search(visited + {t}, (rest + [Entry(e.block, e.looked + 1)]) + [Entry(t, 0)], post);
            Fits(f, s) && Searched(f, Search(visited, rest + [e], post)) == Searched(f, s)
  {
    hide Successors, NextOf, Below, ValidTargets, Fits, Searched;
    assert (rest + [e])[..|rest|] == rest;
    SearchedStep(f, Search(visited, rest + [e], post));
  }

  /** A turn that meets a visited block. */
  lemma SearchedSkip(f: Func, visited: set<Block>, rest: seq<Entry>, e: Entry, post: seq<Block>)
    requires ValidTargets(f) && Fits(f, Search(visited, rest + [e], post)) && e.block < |f|
    requires e.looked < |Successors(f[e.block])| && NextOf(f, e) in visited
    ensures var s := Search(visited, rest + [Entry(e.block, e.looked + 1)], post);
            Fits(f, s) && Searched(f, Search(visited, rest + [e], post)) == Searched(f, s)
  {
    hide Successors, NextOf, Below, ValidTargets, Fits, Searched;
    assert (rest + [e])[..|rest|] == rest;
    SearchedStep(f, Search(visited, rest + [e], post));
  }

  /** A turn that is done with a block. */
  lemma SearchedPop(f: Func, visited: set<Block>, rest: seq<Entry>, e: Entry, post: seq<Block>)
    requires ValidTargets(f) && Fits(f, Search(visited, rest + [e], post)) && e.block < |f|
    requires e.looked >= |Successors(f[e.block])|
    ensures var s := Search(visited, rest, post + [e.block]);
            Fits(f, s) && Searched(f, Search(visited, rest + [e], post)) == Searched(f, s)
  {
    hide Successors, NextOf, Below, ValidTargets, Fits, Searched;
    assert (rest + [e])[..|rest|] == rest;
    SearchedStep(f, Search(visited, rest + [e], post));
  }

  lemma EntryParts(f: Func, e: Entry)
    requires EntryFits(f, e)
    ensures e.block < |f| && e.looked <= |Successors(f[e.block])|
  {
  }

  // ---- what the search keeps ----

  ghost function Blocks(stack: seq<Entry>): (r: seq<Block>)
    ensures |r| == |stack| && forall k :: 0 <= k < |stack| ==> r[k] == stack[k].block
  {
    seq(|stack|, k requires 0 <= k < |stack| => stack[k].block)
  }

  /** Each block visited is on the stack or done, once. */
  ghost predicate Noted(s: Search) {
    Distinct(Blocks(s.stack) + s.post) && forall b :: b in s.visited <==> b in Blocks(s.stack) + s.post
  }

  /** The stack leads from block 0 along edges; block 0 is done last. */
  ghost predicate Chained(f: Func, s: Search)
    requires Fits(f, s)
  {
    && (s.stack != [] ==> s.stack[0].block == 0)
    && (s.stack == [] ==> s.post != [] && s.post[|s.post| - 1] == 0)
    && forall k :: 0 < k < |s.stack| ==> s.stack[k].block in Successors(f[s.stack[k - 1].block])
  }

  /** The successors looked at are visited, all of them for a block that is done. */
  ghost predicate Looked(f: Func, s: Search)
    requires Fits(f, s)
  {
    && (forall k :: 0 <= k < |s.stack| ==> LookedAt(f, s.visited, s.stack[k]))
    && forall b :: b in s.post ==> b < |f| && LookedAt(f, s.visited, Entry(b, |Successors(f[b])|))
  }

  ghost predicate LookedAt(f: Func, visited: set<Block>, e: Entry)
    requires EntryFits(f, e)
  {
    var ts := Successors(f[e.block]);
    forall i :: |ts| - e.looked <= i < |ts| ==> ts[i] in visited
  }

  /** A predecessor of a block that is done comes later, or is still on the stack. */
  ghost predicate Followed(f: Func, s: Search) {
    forall i :: 0 <= i < |s.post| && s.post[i] != 0 ==> FollowedAt(f, s, i)
  }

  ghost predicate FollowedAt(f: Func, s: Search, i: nat)
    requires i < |s.post|
  {
    exists p: Block :: p < |f| && s.post[i] in Successors(f[p]) && p in Blocks(s.stack) + s.post[i + 1..]
  }

  lemma TurnedNoted(f: Func, s: Search)
    requires ValidTargets(f) && Fits(f, s) && s.stack != [] && Noted(s)
    ensures Noted(Turned(f, s))
  {
    hide Successors, ValidTargets, Distinct, Below, Blocks;
    var rest, e := s.stack[..|s.stack| - 1], s.stack[|s.stack| - 1];
    var now := Turned(f, s);
    assert Blocks(s.stack) == Blocks(rest) + [e.block];
    if e.looked < |Successors(f[e.block])| {
      var more := rest + [Entry(e.block, e.looked + 1)];
      assert Blocks(more) == Blocks(s.stack);
      var t := NextOf(f, e);
      if t !in s.visited {
        assert Blocks(now.stack) == Blocks(s.stack) + [t];
        AddedOnce(Blocks(s.stack), s.post, t);
      }
    } else {
      assert (Blocks(rest) + [e.block]) + s.post == Blocks(rest) + ([e.block] + s.post);
      MovedOver(Blocks(rest), s.post, e.block);
    }
  }

  lemma AddedOnce(a: seq<Block>, b: seq<Block>, t: Block)
    requires Distinct(a + b) && t !in a + b
    ensures Distinct((a + [t]) + b) && forall x :: x in (a + [t]) + b <==> x == t || x in a + b
  {
    var all := (a + [t]) + b;
    assert multiset(all) == multiset(a + b) + multiset{t};
    assert t !in multiset(a + b);
    forall x | x in all ensures multiset(all)[x] == 1 {
      if x != t { assert x in a + b; }
    }
  }

  lemma MovedOver(a: seq<Block>, b: seq<Block>, t: Block)
    requires Distinct((a + [t]) + b)
    ensures Distinct(a + (b + [t])) && forall x :: x in a + (b + [t]) <==> x in (a + [t]) + b
  {
    var was, now := (a + [t]) + b, a + (b + [t]);
    assert multiset(was) == multiset(now);
    forall x | x in now ensures multiset(now)[x] == 1 {
      assert x in was;
    }
  }

  lemma TurnedChained(f: Func, s: Search)
    requires ValidTargets(f) && Fits(f, s) && s.stack != [] && Chained(f, s)
    ensures Fits(f, Turned(f, s)) && Chained(f, Turned(f, s))
  {
    hide Successors, ValidTargets;
    TurnedFits(f, s);
  }

  lemma TurnedLooked(f: Func, s: Search)
    requires ValidTargets(f) && Fits(f, s) && s.stack != [] && Looked(f, s)
    ensures Fits(f, Turned(f, s)) && Looked(f, Turned(f, s))
  {
    hide Successors, ValidTargets, Below;
    TurnedFits(f, s);
    var e := s.stack[|s.stack| - 1];
    var now := Turned(f, s);
    assert LookedAt(f, s.visited, e);
    forall k | 0 <= k < |now.stack| ensures LookedAt(f, now.visited, now.stack[k]) {
      if k < |s.stack| - 1 { assert LookedAt(f, s.visited, s.stack[k]); }
    }
    forall b | b in now.post ensures b < |f| && LookedAt(f, now.visited, Entry(b, |Successors(f[b])|)) {
      if b in s.post { assert LookedAt(f, s.visited, Entry(b, |Successors(f[b])|)); }
    }
  }

  lemma TurnedFollowed(f: Func, s: Search)
    requires ValidTargets(f) && Fits(f, s) && s.stack != [] && Chained(f, s) && Followed(f, s)
    ensures Followed(f, Turned(f, s))
  {
    hide Successors, ValidTargets, Below;
    var rest, e := s.stack[..|s.stack| - 1], s.stack[|s.stack| - 1];
    var now := Turned(f, s);
    forall i | 0 <= i < |now.post| && now.post[i] != 0 ensures FollowedAt(f, now, i) {
      if i < |s.post| {
        assert FollowedAt(f, s, i);
        var p: Block :| p < |f| && s.post[i] in Successors(f[p]) && p in Blocks(s.stack) + s.post[i + 1..];
        StillThere(f, s, p, i);
      } else {
        var below := rest[|rest| - 1].block;
        assert s.stack[|s.stack| - 1].block in Successors(f[below]);
        assert Blocks(rest)[|rest| - 1] == below;
      }
    }
  }

  /** A block on the stack or done stays on the stack or is done. */
  lemma StillThere(f: Func, s: Search, p: Block, i: nat)
    requires ValidTargets(f) && Fits(f, s) && s.stack != [] && i < |s.post|
    requires p in Blocks(s.stack) + s.post[i + 1..]
    ensures i < |Turned(f, s).post| && Turned(f, s).post[i] == s.post[i]
    ensures p in Blocks(Turned(f, s).stack) + Turned(f, s).post[i + 1..]
  {
    hide Successors, ValidTargets, Below;
    var rest, e := s.stack[..|s.stack| - 1], s.stack[|s.stack| - 1];
    var now := Turned(f, s);
    assert Blocks(s.stack) == Blocks(rest) + [e.block];
    if e.looked < |Successors(f[e.block])| {
      var more := rest + [Entry(e.block, e.looked + 1)];
      assert Blocks(more) == Blocks(s.stack);
      assert Blocks(more + [Entry(NextOf(f, e), 0)]) == Blocks(s.stack) + [NextOf(f, e)];
    } else {
      assert now.post[i + 1..] == s.post[i + 1..] + [e.block];
    }
  }

  // ---- the order ----

  ghost predicate Kept(f: Func, s: Search) {
    Fits(f, s) && Noted(s) && Chained(f, s) && Looked(f, s) && Followed(f, s)
  }

  lemma {:induction false} SearchedKeeps(f: Func, s: Search)
    requires ValidTargets(f) && Kept(f, s)
    ensures Kept(f, Searched(f, s)) && Searched(f, s).stack == []
    decreases |Below(|f|) - s.visited|, LeftOf(f, s)
  {
    hide ValidTargets, Noted, Chained, Looked, Followed, Turned, Below, LeftOf;
    if s.stack != [] {
      TurnedLess(f, s);
      TurnedNoted(f, s);
      TurnedChained(f, s);
      TurnedLooked(f, s);
      TurnedFollowed(f, s);
      SearchedKeeps(f, Turned(f, s));
    }
  }

  lemma StartKept(f: Func)
    requires f != []
    ensures Kept(f, FromEntry())
  {
    assert Blocks([Entry(0, 0)]) == [0];
  }

  lemma SearchedOrder(f: Func)
    requires ValidTargets(f) && f != []
    ensures Fits(f, FromEntry())
    ensures var order := Reversed(Searched(f, FromEntry()).post);
            && Within(f, order) && Closed(f, order) && Distinct(order) && Entered(f, order)
            && order != [] && order[0] == 0
  {
    hide ValidTargets, Searched, Below, Successors, Kept, FromEntry, Reversed;
    StartFits(f);
    StartKept(f);
    SearchedKeeps(f, FromEntry());
    KeptOrder(f, Searched(f, FromEntry()));
  }

  lemma ReversedMembers(s: seq<Block>, b: Block)
    ensures b in Reversed(s) <==> b in s
  {
    var r := Reversed(s);
    if b in s {
      var k :| 0 <= k < |s| && s[k] == b;
      assert r[|s| - 1 - k] == b;
    }
  }

  lemma KeptClosed(f: Func, s: Search)
    requires Kept(f, s) && s.stack == []
    ensures Within(f, Reversed(s.post)) && Closed(f, Reversed(s.post))
  {
    hide Successors, Below, Reversed, Followed, Distinct, Chained;
    var order := Reversed(s.post);
    assert Blocks(s.stack) + s.post == s.post;
    forall b | b in order ensures b < |f| && forall t :: t in Successors(f[b]) ==> t in order {
      ReversedMembers(s.post, b);
      var ts := Successors(f[b]);
      assert LookedAt(f, s.visited, Entry(b, |ts|));
      forall t | t in ts ensures t in order {
        ReversedMembers(s.post, t);
      }
    }
    forall k | 0 <= k < |order| ensures order[k] < |f| {
      assert order[k] in order;
    }
  }

  lemma KeptEntered(f: Func, s: Search)
    requires Kept(f, s) && s.stack == []
    ensures Entered(f, Reversed(s.post))
  {
    hide Successors, Below, Looked, Fits, Reversed, Distinct, EnteredAt, FollowedAt, Blocks;
    var n := |s.post|;
    assert Blocks(s.stack) + s.post == s.post;
    forall i | 0 < i < |Reversed(s.post)| ensures EnteredAt(f, Reversed(s.post), i) {
      ReversedLength(s.post);
      OnlyLast(s.post, n - 1 - i);
      EnteredFrom(f, s, i);
    }
  }

  lemma ReversedLength(s: seq<Block>)
    ensures |Reversed(s)| == |s|
  {
  }

  lemma EnteredFrom(f: Func, s: Search, i: nat)
    requires s.stack == [] && i < |s.post| && FollowedAt(f, s, |s.post| - 1 - i)
    ensures |Reversed(s.post)| == |s.post| && EnteredAt(f, Reversed(s.post), i)
  {
    hide Successors;
    var order, l := Reversed(s.post), |s.post| - 1 - i;
    var p: Block :| p < |f| && s.post[l] in Successors(f[p]) && p in Blocks(s.stack) + s.post[l + 1..];
    var later := s.post[l + 1..];
    assert p in later;
    var k :| 0 <= k < |later| && later[k] == p;
    assert order[i - 1 - k] == p;
  }

  lemma KeptDistinct(f: Func, s: Search)
    requires Kept(f, s) && s.stack == []
    ensures Distinct(Reversed(s.post)) && Reversed(s.post) != [] && Reversed(s.post)[0] == 0
  {
    hide Successors, Below, Looked, Fits, Followed;
    var order := Reversed(s.post);
    assert Blocks(s.stack) + s.post == s.post;
    ReversedSame(s.post);
    forall b | b in order ensures multiset(order)[b] == 1 {
      ReversedMembers(s.post, b);
    }
  }

  lemma KeptOrder(f: Func, s: Search)
    requires Kept(f, s) && s.stack == []
    ensures var order := Reversed(s.post);
            && Within(f, order) && Closed(f, order) && Distinct(order) && Entered(f, order)
            && order != [] && order[0] == 0
  {
    hide *;
    KeptClosed(f, s);
    KeptEntered(f, s);
    KeptDistinct(f, s);
  }

  lemma OnlyLast(post: seq<Block>, l: nat)
    requires Distinct(post) && l < |post| - 1 && post[|post| - 1] == 0
    ensures post[l] != 0
  {
    DistinctIndices(post, l, |post| - 1);
  }

  lemma {:induction false} ReversedSame(s: seq<Block>)
    ensures multiset(Reversed(s)) == multiset(s)
  {
    if s != [] {
      ReversedSame(s[1..]);
      assert Reversed(s) == Reversed(s[1..]) + [s[0]];
      assert s == [s[0]] + s[1..];
    }
  }
}
