/** Dominators by paths, and the tree that immediate dominators form over an order of
    the blocks. */
module Dominators {
  import opened Cfg
  import opened TrapHoist
  import opened Terminators
  import opened Landings

  ghost predicate PathFrom(f: Func, from: Block, to: Block, path: seq<Block>) {
    IsPath(f, path) && path[0] == from && path[|path| - 1] == to
  }

  /** Every path from the entry to b goes through d. */
  ghost predicate Dom(f: Func, entry: Block, d: Block, b: Block) {
    forall path :: PathFrom(f, entry, b, path) ==> d in path
  }

  /** Of the blocks other than b that every path to b goes through, the last. */
  ghost predicate IsImmediate(f: Func, entry: Block, m: Block, b: Block) {
    m != b && Dom(f, entry, m, b) && forall d :: d != b && Dom(f, entry, d, b) ==> Dom(f, entry, d, m)
  }

  ghost predicate Immediate(f: Func, order: seq<Block>, idom: map<Block, Block>)
    requires order != []
  {
    forall b :: b in order && b != order[0] ==> b in idom && IsImmediate(f, order[0], idom[b], b)
  }

  // ---- paths ----

  lemma PathsJoin(f: Func, a: seq<Block>, b: seq<Block>)
    requires IsPath(f, a) && IsPath(f, b) && b[0] in Successors(f[a[|a| - 1]])
    ensures PathFrom(f, a[0], b[|b| - 1], a + b)
  {
    hide Successors;
    var r := a + b;
    forall k | 0 <= k < |r| - 1
      ensures r[k + 1] in Successors(f[r[k]])
    {
      if k < |a| - 1 {
        assert r[k] == a[k] && r[k + 1] == a[k + 1];
      } else if k >= |a| {
        assert r[k] == b[k - |a|] && r[k + 1] == b[k - |a| + 1];
      }
    }
  }

  lemma PathPart(f: Func, path: seq<Block>, i: nat, j: nat)
    requires IsPath(f, path) && i < j <= |path|
    ensures PathFrom(f, path[i], path[j - 1], path[i..j])
  {
    hide Successors;
    var r := path[i..j];
    forall k | 0 <= k < |r| - 1
      ensures r[k + 1] in Successors(f[r[k]])
    {
      assert r[k] == path[i + k] && r[k + 1] == path[i + k + 1];
    }
  }

  /** Blocks that each follow one of their predecessors are reached through earlier ones. */
  lemma {:induction false} EnteredPath(f: Func, order: seq<Block>, i: nat) returns (path: seq<Block>)
    requires i < |order| && Closed(f, order) && Entered(f, order)
    ensures PathFrom(f, order[0], order[i], path) && forall b :: b in path ==> b in order[..i + 1]
  {
    hide Successors;
    assert order[i] in order && order[..i + 1][i] == order[i];
    path := [order[i]];
    if i > 0 {
      assert EnteredAt(f, order, i);
      var j :| 0 <= j < i && order[j] < |f| && order[i] in Successors(f[order[j]]);
      var head := EnteredPath(f, order, j);
      PathsJoin(f, head, path);
      forall b | b in head
        ensures b in order[..i + 1]
      {
        var k :| 0 <= k < |order[..j + 1]| && order[..j + 1][k] == b;
        assert order[..i + 1][k] == b;
      }
      path := head + path;
    }
  }

  // ---- dominators ----

  lemma DomTransitive(f: Func, entry: Block, c: Block, d: Block, b: Block)
    requires Dom(f, entry, c, d) && Dom(f, entry, d, b)
    ensures Dom(f, entry, c, b)
  {
    hide IsPath;
    forall path | PathFrom(f, entry, b, path)
      ensures c in path
    {
      var k :| 0 <= k < |path| && path[k] == d;
      PathPart(f, path, 0, k + 1);
      assert PathFrom(f, entry, d, path[0..k + 1]);
    }
  }

  /** What dominates a block strictly dominates its predecessors. */
  lemma DomOfPred(f: Func, entry: Block, d: Block, p: Block, b: Block)
    requires Dom(f, entry, d, b) && d != b && p < |f| && b in Successors(f[p]) && b < |f|
    ensures Dom(f, entry, d, p)
  {
    hide Successors;
    forall path | PathFrom(f, entry, p, path)
      ensures d in path
    {
      PathsJoin(f, path, [b]);
      assert d in path + [b];
    }
  }

  /** A dominator comes no later. */
  lemma DomEarlier(f: Func, order: seq<Block>, rank: map<Block, nat>, d: Block, b: Block)
    requires order != [] && Closed(f, order) && Ranks(order, rank) && Entered(f, order) && b in rank
    requires Dom(f, order[0], d, b)
    ensures d in rank && rank[d] <= rank[b]
  {
    hide IsPath, Closed, Entered;
    var path := EnteredPath(f, order, rank[b]);
    var k :| 0 <= k < |order[..rank[b] + 1]| && order[..rank[b] + 1][k] == d;
    assert order[k] == d;
  }

  /** So immediate dominators form a tree over any such order. */
  lemma ImmediateTree(f: Func, order: seq<Block>, rank: map<Block, nat>, idom: map<Block, Block>)
    requires order != [] && Closed(f, order) && Ranks(order, rank) && Entered(f, order) && Immediate(f, order, idom)
    ensures Tree(order, rank, idom)
  {
    hide Closed, Entered, Dom;
    forall b | b in rank && b != order[0]
      ensures b in idom && idom[b] in rank && rank[idom[b]] < rank[b]
    {
      assert order[rank[b]] in order;
      DomEarlier(f, order, rank, idom[b], b);
      assert order[rank[idom[b]]] == idom[b];
    }
  }

  /** Climbing the tree meets exactly the blocks that every path goes through. */
  lemma {:induction false} ChainExact(f: Func, order: seq<Block>, rank: map<Block, nat>, idom: map<Block, Block>,
                                      d: Block, b: Block)
    requires order != [] && Closed(f, order) && Ranks(order, rank) && Immediate(f, order, idom)
    requires Tree(order, rank, idom) && b in rank
    ensures Dominates(order, rank, idom, d, b) <==> Dom(f, order[0], d, b)
    decreases rank[b]
  {
    hide IsPath, Dom, Successors;
    assert order[rank[b]] in order;
    if b == order[0] {
      OnlyEntry(f, b, d);
    } else {
      ChainExact(f, order, rank, idom, d, idom[b]);
      SelfDom(f, order[0], b);
      if Dom(f, order[0], d, idom[b]) {
        DomTransitive(f, order[0], d, idom[b], b);
      }
    }
  }

  lemma SelfDom(f: Func, entry: Block, b: Block)
    ensures Dom(f, entry, b, b)
  {
    forall path | PathFrom(f, entry, b, path)
      ensures b in path
    {
      assert path[|path| - 1] in path;
    }
  }

  lemma OnlyEntry(f: Func, entry: Block, d: Block)
    requires entry < |f|
    ensures Dom(f, entry, d, entry) <==> d == entry
  {
    assert PathFrom(f, entry, entry, [entry]);
    SelfDom(f, entry, entry);
  }
}
