/** The search for workspace crates a backend may not reach. */
module Layering {
  import opened Words
  import opened Wrappers

  type Crate = string

  /** The dependencies of each crate, in the order they are visited. */
  type Graph = map<Crate, seq<Crate>>

  /** Only workspace crates are followed. */
  predicate InWorkspace(c: Crate) {
    "arandu_" <= c
  }

  predicate Edge(g: Graph, a: Crate, b: Crate) {
    a in g && b in g[a] && InWorkspace(b)
  }

  /** A path of dependencies from the backend that passes only through allowed crates. */
  ghost predicate Legal(g: Graph, allowed: set<Crate>, backend: Crate, path: seq<Crate>): (r: bool)
    ensures r ==> path != []
  {
    && path != [] && path[0] == backend
    && (forall k :: 0 <= k < |path| - 1 ==> Edge(g, path[k], path[k + 1]))
    && forall k :: 0 < k < |path| - 1 ==> path[k] in allowed
  }

  ghost predicate Forbidden(allowed: set<Crate>, backend: Crate, c: Crate) {
    c != backend && c !in allowed
  }

  /** Which dependency each crate on the path leads on by. */
  ghost predicate Spelled(g: Graph, path: seq<Crate>, word: seq<nat>) {
    && |path| == |word| + 1
    && forall k :: 0 <= k < |word| ==>
         path[k] in g && word[k] < |g[path[k]]| && g[path[k]][word[k]] == path[k + 1]
  }

  // ---- the search ----

  type Parents = map<Crate, Option<Crate>>

  /** For each crate found, the word its path is spelled by. */
  type Notes = map<Crate, seq<nat>>

  /** Crate c was reached from its parent, which may be passed through, by the last number of its word. */
  ghost predicate Child(g: Graph, allowed: set<Crate>, backend: Crate, parent: Parents, words: Notes, c: Crate)
    requires c in parent && c in words
  {
    && parent[c].Some? && parent[c].value in parent && parent[c].value in words && parent[c].value in g
    && (parent[c].value == backend || parent[c].value in allowed) && InWorkspace(c)
    && words[c] != [] && words[c][..|words[c]| - 1] == words[parent[c].value]
    && words[c][|words[c]| - 1] < |g[parent[c].value]| && g[parent[c].value][words[c][|words[c]| - 1]] == c
  }

  ghost predicate Tree(g: Graph, allowed: set<Crate>, backend: Crate, parent: Parents, words: Notes) {
    && words.Keys == parent.Keys && backend in parent && parent[backend] == None && words[backend] == []
    && forall c :: c in parent && c != backend ==> Child(g, allowed, backend, parent, words, c)
  }

  /** The first n dependencies of u are found, by words not after those through u. */
  ghost predicate Followed(g: Graph, words: Notes, u: Crate, n: nat)
    requires u in words
  {
    u in g ==> n <= |g[u]| && forall k :: 0 <= k < n && InWorkspace(g[u][k]) ==>
      g[u][k] in words && NotAfter(words[g[u][k]], words[u] + [k])
  }

  ghost predicate Done(g: Graph, words: Notes, done: set<Crate>) {
    forall u :: u in done ==> u in words && (u in g ==> Followed(g, words, u, |g[u]|))
  }

  ghost predicate Ascends(words: Notes, cs: seq<Crate>) {
    && (forall k :: 0 <= k < |cs| ==> cs[k] in words)
    && forall j, k :: 0 <= j < k < |cs| ==> Before(words[cs[j]], words[cs[k]])
  }

  ghost predicate AllBefore(words: Notes, front: seq<nat>) {
    forall c :: c in words ==> Before(words[c], front)
  }

  /** Crates to pass through wait in the queue unless they were followed; the others are on the list. */
  ghost predicate Split(allowed: set<Crate>, backend: Crate, words: Notes, queue: seq<Crate>, forbidden: seq<Crate>,
                        done: set<Crate>) {
    && (forall c :: c in words && (c == backend || c in allowed) ==> c in queue || c in done)
    && (forall c :: c in queue ==> c == backend || c in allowed)
    && (forall c :: c in forbidden <==> c in words && Forbidden(allowed, backend, c))
  }

  function Names(g: Graph, backend: Crate): set<Crate> {
    {backend} + g.Keys + set a, c | a in g && c in g[a] :: c
  }

  /** What both loops keep. */
  ghost predicate Sound(g: Graph, allowed: set<Crate>, backend: Crate, parent: Parents, words: Notes,
                        queue: seq<Crate>, forbidden: seq<Crate>, done: set<Crate>) {
    && Tree(g, allowed, backend, parent, words) && Done(g, words, done) && parent.Keys <= Names(g, backend)
    && Ascends(words, queue) && Ascends(words, forbidden)
  }

  ghost predicate State(g: Graph, allowed: set<Crate>, backend: Crate, parent: Parents, words: Notes,
                        queue: seq<Crate>, forbidden: seq<Crate>, done: set<Crate>) {
    && Sound(g, allowed, backend, parent, words, queue, forbidden, done)
    && Split(allowed, backend, words, queue, forbidden, done)
    && (queue != [] ==> queue[0] in words && AllBefore(words, words[queue[0]] + [0]))
  }

  /** While the dependencies of u are followed, n of them so far. */
  ghost predicate Within(g: Graph, allowed: set<Crate>, backend: Crate, parent: Parents, words: Notes,
                         queue: seq<Crate>, forbidden: seq<Crate>, done: set<Crate>, u: Crate, n: nat) {
    && Sound(g, allowed, backend, parent, words, queue, forbidden, done)
    && Split(allowed, backend, words, queue, forbidden, done + {u})
    && u in words && (u == backend || u in allowed) && Followed(g, words, u, n) && AllBefore(words, words[u] + [n])
    && forall k :: 0 <= k < |queue| ==> queue[k] in words && Before(words[u], words[queue[k]])
  }

  lemma StartState(g: Graph, allowed: set<Crate>, backend: Crate)
    ensures State(g, allowed, backend, map[backend := None], map[backend := []], [backend], [], {})
  {
  }

  lemma Pop(g: Graph, allowed: set<Crate>, backend: Crate, parent: Parents, words: Notes, queue: seq<Crate>,
            forbidden: seq<Crate>, done: set<Crate>)
    requires State(g, allowed, backend, parent, words, queue, forbidden, done) && queue != []
    ensures Within(g, allowed, backend, parent, words, queue[1..], forbidden, done, queue[0], 0)
  {
    hide Tree, Done, Names, Before;
    assert forall c :: c in queue ==> c == queue[0] || c in queue[1..];
    assert queue[0] in queue;
    assert forall c :: c in queue[1..] ==> c in queue;
  }

  lemma FrontMoves(words: Notes, w: seq<nat>, n: nat)
    requires AllBefore(words, w + [n])
    ensures AllBefore(words, w + [n + 1])
  {
    hide Before;
    BeforeLast(w, n, n + 1);
    forall c | c in words ensures Before(words[c], w + [n + 1]) {
      BeforeTransitive(words[c], w + [n], w + [n + 1]);
    }
  }

  lemma Skip(g: Graph, allowed: set<Crate>, backend: Crate, parent: Parents, words: Notes, queue: seq<Crate>,
             forbidden: seq<Crate>, done: set<Crate>, u: Crate, n: nat)
    requires Within(g, allowed, backend, parent, words, queue, forbidden, done, u, n) && u in g && n < |g[u]|
    requires !InWorkspace(g[u][n]) || g[u][n] in parent
    ensures Within(g, allowed, backend, parent, words, queue, forbidden, done, u, n + 1)
  {
    hide Names, Done, Split, Ascends, Before, InWorkspace;
    TreeKeys(g, allowed, backend, parent, words);
    hide Tree;
    FrontMoves(words, words[u], n);
  }

  lemma TreeKeys(g: Graph, allowed: set<Crate>, backend: Crate, parent: Parents, words: Notes)
    requires Tree(g, allowed, backend, parent, words)
    ensures words.Keys == parent.Keys && backend in words && words[backend] == []
  {
  }

  lemma NamesDep(g: Graph, backend: Crate, u: Crate, n: nat)
    requires u in g && n < |g[u]|
    ensures g[u][n] in Names(g, backend)
  {
    assert g[u][n] in g[u];
  }

  lemma InsertTree(g: Graph, allowed: set<Crate>, backend: Crate, parent: Parents, words: Notes, u: Crate, n: nat)
    requires Tree(g, allowed, backend, parent, words) && u in parent && (u == backend || u in allowed)
    requires u in g && n < |g[u]| && InWorkspace(g[u][n]) && g[u][n] !in parent && u in words
    ensures Tree(g, allowed, backend, parent[g[u][n] := Some(u)], words[g[u][n] := words[u] + [n]])
  {
    hide InWorkspace;
    var c := g[u][n];
    var parent', words' := parent[c := Some(u)], words[c := words[u] + [n]];
    forall x | x in parent' && x != backend ensures Child(g, allowed, backend, parent', words', x) {
      if x != c { assert Child(g, allowed, backend, parent, words, x); }
    }
  }

  lemma InsertDone(g: Graph, words: Notes, done: set<Crate>, c: Crate, w: seq<nat>)
    requires Done(g, words, done) && c !in words
    ensures Done(g, words[c := w], done)
  {
    hide NotAfter;
    forall u | u in done
      ensures u in g ==> Followed(g, words[c := w], u, |g[u]|)
    {
      assert u in g ==> Followed(g, words, u, |g[u]|);
    }
  }

  lemma InsertAscends(words: Notes, cs: seq<Crate>, c: Crate, w: seq<nat>)
    requires Ascends(words, cs) && c !in words && AllBefore(words, w)
    ensures Ascends(words[c := w], cs) && Ascends(words[c := w], cs + [c])
  {
    hide Before;
  }

  lemma InsertSplit(allowed: set<Crate>, backend: Crate, words: Notes, queue: seq<Crate>, forbidden: seq<Crate>,
                    done: set<Crate>, c: Crate, w: seq<nat>)
    requires Split(allowed, backend, words, queue, forbidden, done) && c !in words && backend in words
    ensures Split(allowed, backend, words[c := w], if c in allowed then queue + [c] else queue,
                  if c in allowed then forbidden else forbidden + [c], done)
  {
    if c !in allowed {
      assert forall x :: x in forbidden + [c] <==> x in forbidden || x == c;
    } else {
      assert forall x :: x in queue + [c] <==> x in queue || x == c;
    }
  }

  lemma InsertFollowed(g: Graph, words: Notes, u: Crate, n: nat)
    requires u in words && u in g && n < |g[u]| && Followed(g, words, u, n) && g[u][n] !in words
    ensures Followed(g, words[g[u][n] := words[u] + [n]], u, n + 1)
  {
    hide Before, InWorkspace;
  }

  lemma InsertFront(words: Notes, queue: seq<Crate>, u: Crate, n: nat, c: Crate, more: seq<Crate>)
    requires u in words && c !in words && AllBefore(words, words[u] + [n]) && (more == queue || more == queue + [c])
    requires forall k :: 0 <= k < |queue| ==> queue[k] in words && Before(words[u], words[queue[k]])
    ensures var now := words[c := words[u] + [n]];
            && AllBefore(now, now[u] + [n + 1])
            && forall k :: 0 <= k < |more| ==> more[k] in now && Before(now[u], now[more[k]])
  {
    FrontMoves(words, words[u], n);
    BeforeLast(words[u], n, n + 1);
    hide Before;
    assert Before(words[u], words[u] + [n]) by { Longer(words[u], n); }
  }

  lemma Longer(w: seq<nat>, n: nat)
    ensures Before(w, w + [n])
  {
  }

  lemma Insert(g: Graph, allowed: set<Crate>, backend: Crate, parent: Parents, words: Notes, queue: seq<Crate>,
               forbidden: seq<Crate>, done: set<Crate>, u: Crate, n: nat)
    requires Within(g, allowed, backend, parent, words, queue, forbidden, done, u, n) && u in g && n < |g[u]|
    requires InWorkspace(g[u][n]) && g[u][n] !in parent
    ensures var c := g[u][n];
            Within(g, allowed, backend, parent[c := Some(u)], words[c := words[u] + [n]],
                   if c in allowed then queue + [c] else queue, if c in allowed then forbidden else forbidden + [c],
                   done, u, n + 1)
  {
    hide Tree, Done, Ascends, Split, Names, Followed, Before, AllBefore, InWorkspace;
    var c, w := g[u][n], words[u] + [n];
    NamesDep(g, backend, u, n);
    TreeKeys(g, allowed, backend, parent, words);
    InsertTree(g, allowed, backend, parent, words, u, n);
    InsertDone(g, words, done, c, w);
    InsertAscends(words, queue, c, w);
    InsertAscends(words, forbidden, c, w);
    InsertSplit(allowed, backend, words, queue, forbidden, done + {u}, c, w);
    InsertFollowed(g, words, u, n);
    InsertFront(words, queue, u, n, c, if c in allowed then queue + [c] else queue);
  }

  lemma Finish(g: Graph, allowed: set<Crate>, backend: Crate, parent: Parents, words: Notes, queue: seq<Crate>,
               forbidden: seq<Crate>, done: set<Crate>, u: Crate, n: nat)
    requires Within(g, allowed, backend, parent, words, queue, forbidden, done, u, n)
    requires n == if u in g then |g[u]| else 0
    ensures State(g, allowed, backend, parent, words, queue, forbidden, done + {u})
  {
    hide Tree, Names, Ascends, Split, Followed, Before;
    if queue != [] {
      var next := words[queue[0]];
      BeforeLonger(words[u], next, n, 0);
      forall c | c in words ensures Before(words[c], next + [0]) {
        BeforeTransitive(words[c], words[u] + [n], next + [0]);
      }
    }
  }

  lemma WithinParts(g: Graph, allowed: set<Crate>, backend: Crate, parent: Parents, words: Notes, queue: seq<Crate>,
                    forbidden: seq<Crate>, done: set<Crate>, u: Crate, n: nat)
    requires Within(g, allowed, backend, parent, words, queue, forbidden, done, u, n)
    ensures u in words && parent.Keys <= Names(g, backend)
  {
  }

  /** The finished search: a tree over everything found, by words no edge betters, and the forbidden crates
      in the order of their words. */
  ghost predicate Searched(g: Graph, allowed: set<Crate>, backend: Crate, parent: Parents, forbidden: seq<Crate>,
                           words: Notes, done: set<Crate>) {
    && Tree(g, allowed, backend, parent, words) && Done(g, words, done) && Ascends(words, forbidden)
    && Split(allowed, backend, words, [], forbidden, done)
  }

  /** The loop over the dependencies of one crate. */
  method Follow(backend: Crate, g: Graph, allowed: set<Crate>, u: Crate, parent: Parents, queue: seq<Crate>,
                forbidden: seq<Crate>, ghost words: Notes, ghost done: set<Crate>)
    returns (parent': Parents, queue': seq<Crate>, forbidden': seq<Crate>, ghost words': Notes)
    requires Within(g, allowed, backend, parent, words, queue, forbidden, done, u, 0)
    ensures State(g, allowed, backend, parent', words', queue', forbidden', done + {u})
    ensures parent.Keys <= parent'.Keys <= Names(g, backend) && (parent'.Keys == parent.Keys ==> queue' == queue)
  {
    hide Within, Names, InWorkspace, State;
    parent', queue', forbidden', words' := parent, queue, forbidden, words;
    var deps := if u in g then g[u] else [];
    for k := 0 to |deps|
      invariant Within(g, allowed, backend, parent', words', queue', forbidden', done, u, k)
      invariant parent.Keys <= parent'.Keys && (parent'.Keys == parent.Keys ==> queue' == queue)
    {
      var c := deps[k];
      if InWorkspace(c) && c !in parent' {
        WithinParts(g, allowed, backend, parent', words', queue', forbidden', done, u, k);
        Insert(g, allowed, backend, parent', words', queue', forbidden', done, u, k);
        parent' := parent'[c := Some(u)];
        words' := words'[c := words'[u] + [k]];
        if c in allowed {
          queue' := queue' + [c];
        } else {
          forbidden' := forbidden' + [c];
        }
      } else {
        Skip(g, allowed, backend, parent', words', queue', forbidden', done, u, k);
      }
    }
    Finish(g, allowed, backend, parent', words', queue', forbidden', done, u, |deps|);
    WithinParts(g, allowed, backend, parent', words', queue', forbidden', done, u, |deps|);
  }

  method Search(backend: Crate, g: Graph, allowed: set<Crate>)
    returns (parent: Parents, forbidden: seq<Crate>, ghost words: Notes, ghost done: set<Crate>)
    ensures Searched(g, allowed, backend, parent, forbidden, words, done)
    ensures forall c :: c in forbidden <==> c in parent && Forbidden(allowed, backend, c)
  {
    hide Within, Names, State, Searched, Forbidden;
    parent, forbidden := map[backend := None], [];
    words, done := map[backend := []], {};
    var queue := [backend];
    StartState(g, allowed, backend);
    while queue != []
      invariant State(g, allowed, backend, parent, words, queue, forbidden, done)
      decreases |Names(g, backend) - parent.Keys|, |queue|
    {
      Pop(g, allowed, backend, parent, words, queue, forbidden, done);
      ghost var was := parent.Keys;
      var u := queue[0];
      parent, queue, forbidden, words := Follow(backend, g, allowed, u, parent, queue[1..], forbidden, words, done);
      done := done + {u};
      Progress(Names(g, backend), was, parent.Keys);
    }
    StateParts(g, allowed, backend, parent, words, forbidden, done);
  }

  lemma StateParts(g: Graph, allowed: set<Crate>, backend: Crate, parent: Parents, words: Notes, forbidden: seq<Crate>,
                   done: set<Crate>)
    requires State(g, allowed, backend, parent, words, [], forbidden, done)
    ensures Searched(g, allowed, backend, parent, forbidden, words, done)
    ensures forall c :: c in forbidden <==> c in parent && Forbidden(allowed, backend, c)
  {
  }

  lemma Progress(all: set<Crate>, was: set<Crate>, now: set<Crate>)
    requires was <= now <= all
    ensures now != was ==> |all - now| < |all - was|
  {
    if now != was {
      var c :| c in now && c !in was;
      assert all - now < all - was;
      Smaller(all - now, all - was);
    }
  }

  lemma {:induction false} Smaller(a: set<Crate>, b: set<Crate>)
    requires a < b
    ensures |a| < |b|
    decreases a
  {
    if a == {} {
      var x :| x in b;
    } else {
      var x :| x in a;
      Smaller(a - {x}, b - {x});
    }
  }

  // ---- what was found ----

  lemma LegalFront(g: Graph, allowed: set<Crate>, backend: Crate, path: seq<Crate>)
    requires Legal(g, allowed, backend, path) && |path| > 1
    ensures var n := |path| - 1;
            && Legal(g, allowed, backend, path[..n]) && Edge(g, path[n - 1], path[n])
            && (path[n - 1] == backend || path[n - 1] in allowed)
  {
    hide Edge;
    var n := |path| - 1;
    assert Edge(g, path[n - 1], path[n - 1 + 1]);
    var front := path[..n];
    assert forall k :: 0 <= k < |front| ==> front[k] == path[k];
    forall k | 0 <= k < |front| - 1
      ensures Edge(g, front[k], front[k + 1])
    {
      assert Edge(g, path[k], path[k + 1]);
    }
  }

  lemma StepFound(g: Graph, allowed: set<Crate>, backend: Crate, words: Notes, forbidden: seq<Crate>, done: set<Crate>,
                  u: Crate, k: nat)
    requires Done(g, words, done) && Split(allowed, backend, words, [], forbidden, done)
    requires u in words && (u == backend || u in allowed) && u in g && k < |g[u]| && InWorkspace(g[u][k])
    ensures g[u][k] in words && NotAfter(words[g[u][k]], words[u] + [k])
  {
    hide NotAfter, InWorkspace;
    assert u in done;
    assert Followed(g, words, u, |g[u]|);
  }

  lemma NotAfterLonger(p: seq<nat>, q: seq<nat>, r: seq<nat>, k: nat)
    requires NotAfter(p, q) && NotAfter(r, p + [k])
    ensures NotAfter(r, q + [k])
  {
    hide Before;
    if p != q {
      BeforeLonger(p, q, k, k);
      if r != p + [k] { BeforeTransitive(r, p + [k], q + [k]); }
    }
  }

  /** Every crate on a legal path was found, and no word that spells a path to it comes before its own. */
  lemma {:induction false} Nearest(g: Graph, allowed: set<Crate>, backend: Crate, parent: Parents,
                                   forbidden: seq<Crate>, words: Notes, done: set<Crate>, path: seq<Crate>,
                                   word: seq<nat>)
    requires Searched(g, allowed, backend, parent, forbidden, words, done) && Legal(g, allowed, backend, path)
    requires Spelled(g, path, word)
    ensures path[|path| - 1] in words && NotAfter(words[path[|path| - 1]], word)
    decreases |path|
  {
    hide Done, Split, Edge, Tree, Ascends, NotAfter, InWorkspace;
    TreeKeys(g, allowed, backend, parent, words);
    var n := |path| - 1;
    if n == 0 {
      assert path[0] == backend && word == [];
      assert NotAfter([], []) by { Itself(); }
    } else {
      hide Legal;
      LegalFront(g, allowed, backend, path);
      var front := word[..n - 1];
      SpelledFront(g, path, word);
      Nearest(g, allowed, backend, parent, forbidden, words, done, path[..n], front);
      EdgeInside(g, path[n - 1], path[n]);
      StepFound(g, allowed, backend, words, forbidden, done, path[n - 1], word[n - 1]);
      NotAfterLonger(words[path[n - 1]], front, words[path[n]], word[n - 1]);
      assert word == front + [word[n - 1]];
    }
  }

  lemma Itself()
    ensures NotAfter([], [])
  {
  }

  lemma EdgeInside(g: Graph, a: Crate, b: Crate)
    requires Edge(g, a, b)
    ensures InWorkspace(b)
  {
  }

  lemma SpelledFront(g: Graph, path: seq<Crate>, word: seq<nat>)
    requires Spelled(g, path, word) && |path| > 1
    ensures var n := |path| - 1;
            && Spelled(g, path[..n], word[..n - 1]) && path[n - 1] in g && word[n - 1] < |g[path[n - 1]]|
            && g[path[n - 1]][word[n - 1]] == path[n]
  {
  }

  /** A legal path is spelled by some word. */
  lemma {:induction false} SomeWord(g: Graph, allowed: set<Crate>, backend: Crate, path: seq<Crate>)
    returns (word: seq<nat>)
    requires Legal(g, allowed, backend, path)
    ensures Spelled(g, path, word)
    decreases |path|
  {
    var n := |path| - 1;
    if n == 0 {
      word := [];
    } else {
      LegalFront(g, allowed, backend, path);
      var front := SomeWord(g, allowed, backend, path[..n]);
      var k :| 0 <= k < |g[path[n - 1]]| && g[path[n - 1]][k] == path[n];
      word := front + [k];
      SpelledMore(g, path, front, k);
    }
  }

  lemma SpelledMore(g: Graph, path: seq<Crate>, front: seq<nat>, k: nat)
    requires |path| > 1 && Spelled(g, path[..|path| - 1], front) && path[|path| - 2] in g
    requires k < |g[path[|path| - 2]]| && g[path[|path| - 2]][k] == path[|path| - 1]
    ensures Spelled(g, path, front + [k])
  {
    var word, init := front + [k], path[..|path| - 1];
    forall i | 0 <= i < |word|
      ensures path[i] in g && word[i] < |g[path[i]]| && g[path[i]][word[i]] == path[i + 1]
    {
      if i < |front| { assert init[i] == path[i] && init[i + 1] == path[i + 1]; }
    }
  }

  lemma TreeStep(g: Graph, allowed: set<Crate>, backend: Crate, parent: Parents, words: Notes, c: Crate)
    requires Tree(g, allowed, backend, parent, words) && c in parent
    ensures c in words && (parent[c].None? <==> c == backend) && (c == backend ==> words[c] == [])
    ensures c != backend ==> Child(g, allowed, backend, parent, words, c)
  {
    assert words.Keys == parent.Keys;
  }

  /** Follows the parents back to the backend: a legal path, spelled by the word noted. */
  method Rebuild(g: Graph, allowed: set<Crate>, backend: Crate, parent: Parents, ghost words: Notes, target: Crate)
    returns (path: seq<Crate>)
    requires Tree(g, allowed, backend, parent, words) && target in parent && target in words
    ensures Legal(g, allowed, backend, path) && path[|path| - 1] == target && Spelled(g, path, words[target])
  {
    hide Tree, Child, Legal, Spelled;
    TreeStep(g, allowed, backend, parent, words, target);
    LastStep(g, allowed, backend, parent, words, target);
    var back := [target];
    ghost var on := [target];
    while parent[back[|back| - 1]].Some?
      invariant back != [] && on == Reversed(back) && on[|on| - 1] == target
      invariant on[0] == back[|back| - 1] && on[0] in parent && on[0] in words
      invariant Onward(g, allowed, backend, on) && |words[on[0]]| <= |words[target]|
      invariant words[target][..|words[on[0]]|] == words[on[0]]
      invariant Spelled(g, on, words[target][|words[on[0]]|..])
      decreases |words[back[|back| - 1]]|
    {
      TreeStep(g, allowed, backend, parent, words, on[0]);
      OneBack(g, allowed, backend, parent, words, on, words[target]);
      ReversedMore(back, parent[back[|back| - 1]].value);
      back := back + [parent[back[|back| - 1]].value];
      on := Reversed(back);
    }
    TreeStep(g, allowed, backend, parent, words, on[0]);
    OnwardLegal(g, allowed, backend, on);
    assert words[target][0..] == words[target];
    path := Reversed(back);
  }

  function Reversed(s: seq<Crate>): seq<Crate> {
    seq(|s|, k requires 0 <= k < |s| => s[|s| - 1 - k])
  }

  lemma ReversedMore(s: seq<Crate>, c: Crate)
    ensures Reversed(s + [c]) == [c] + Reversed(s)
  {
  }

  /** A path of which every crate but the last may be passed through and, but for the first, is not the backend. */
  ghost predicate Onward(g: Graph, allowed: set<Crate>, backend: Crate, path: seq<Crate>) {
    && path != [] && (forall k :: 0 <= k < |path| - 1 ==> Edge(g, path[k], path[k + 1]))
    && (forall k :: 0 <= k < |path| - 1 ==> path[k] == backend || path[k] in allowed)
    && forall k :: 0 < k < |path| ==> path[k] != backend
  }

  lemma LastStep(g: Graph, allowed: set<Crate>, backend: Crate, parent: Parents, words: Notes, c: Crate)
    requires c in words
    ensures Onward(g, allowed, backend, [c]) && Spelled(g, [c], words[c][|words[c]|..])
    ensures words[c][..|words[c]|] == words[c]
  {
  }

  lemma OneBack(g: Graph, allowed: set<Crate>, backend: Crate, parent: Parents, words: Notes, path: seq<Crate>,
                word: seq<nat>)
    requires Onward(g, allowed, backend, path) && path[0] in parent && path[0] in words && path[0] != backend
    requires Child(g, allowed, backend, parent, words, path[0])
    requires |words[path[0]]| <= |word| && word[..|words[path[0]]|] == words[path[0]]
    requires Spelled(g, path, word[|words[path[0]]|..])
    ensures var p := parent[path[0]].value;
            && p in parent && p in words && |words[p]| < |words[path[0]]| && word[..|words[p]|] == words[p]
            && Onward(g, allowed, backend, [p] + path) && Spelled(g, [p] + path, word[|words[p]|..])
  {
    hide InWorkspace;
    var p, w := parent[path[0]].value, words[path[0]];
    var n := |w| - 1;
    var longer, rest := word[n..], word[n + 1..];
    assert w[..n] == words[p] && word[..n + 1] == w;
    assert word[..n] == word[..n + 1][..n] && word[n] == w[n];
    var q := [p] + path;
    forall k | 0 <= k < |longer| ensures q[k] in g && longer[k] < |g[q[k]]| && g[q[k]][longer[k]] == q[k + 1] {
      if k > 0 { assert longer[k] == rest[k - 1] && q[k] == path[k - 1] && q[k + 1] == path[k]; }
    }
    forall k | 0 <= k < |q| - 1 ensures Edge(g, q[k], q[k + 1]) && (q[k] == backend || q[k] in allowed) {
      if k > 0 { assert Edge(g, path[k - 1], path[k - 1 + 1]) && q[k] == path[k - 1]; }
    }
  }

  lemma OnwardLegal(g: Graph, allowed: set<Crate>, backend: Crate, path: seq<Crate>)
    requires Onward(g, allowed, backend, path) && path[0] == backend
    ensures Legal(g, allowed, backend, path)
  {
    hide Edge;
  }

  /** Every path reported is a legal path to a forbidden crate. */
  ghost predicate Justified(g: Graph, allowed: set<Crate>, backend: Crate, paths: seq<seq<Crate>>) {
    forall i :: 0 <= i < |paths| ==>
      Legal(g, allowed, backend, paths[i]) && Forbidden(allowed, backend, paths[i][|paths[i]| - 1])
  }

  /** No crate is reported twice, and shorter paths come first. */
  ghost predicate InOrder(paths: seq<seq<Crate>>) {
    forall i, j :: 0 <= i < j < |paths| ==>
      && paths[i] != [] && paths[j] != [] && paths[i][|paths[i]| - 1] != paths[j][|paths[j]| - 1]
      && |paths[i]| <= |paths[j]|
  }

  /** For every legal path to a forbidden crate one to it that is no longer is reported. */
  ghost predicate Complete(g: Graph, allowed: set<Crate>, backend: Crate, paths: seq<seq<Crate>>) {
    forall path :: Legal(g, allowed, backend, path) && Forbidden(allowed, backend, path[|path| - 1]) ==>
      exists i :: 0 <= i < |paths| && Shortest(paths[i], path)
  }

  /** The paths are spelled by the words, which ascend; no legal path to the same crate has a word before. */
  ghost predicate ByWords(g: Graph, allowed: set<Crate>, backend: Crate, paths: seq<seq<Crate>>, words: seq<seq<nat>>) {
    && |words| == |paths|
    && (forall i :: 0 <= i < |paths| ==> Spelled(g, paths[i], words[i]))
    && (forall i, j :: 0 <= i < j < |words| ==> Before(words[i], words[j]))
    && forall i, path, word :: 0 <= i < |paths| && Spelled(g, path, word) && SameEnd(path, paths[i]) ==>
         Legal(g, allowed, backend, path) ==> NotAfter(words[i], word)
  }

  ghost predicate SameEnd(path: seq<Crate>, other: seq<Crate>) {
    path != [] && other != [] && path[|path| - 1] == other[|other| - 1]
  }

  /** Each forbidden crate the backend reaches through allowed ones is reported once, by a legal path
      than which none to it is shorter; nothing else is reported; and shorter paths come first. Of two paths
      as short the one that turns first to the dependency listed earlier is reported, and comes first. */
  method ForbiddenBackendPaths(backend: Crate, g: Graph, allowed: set<Crate>)
    returns (paths: seq<seq<Crate>>, ghost words: seq<seq<nat>>)
    ensures Justified(g, allowed, backend, paths)
    ensures InOrder(paths)
    ensures Complete(g, allowed, backend, paths)
    ensures ByWords(g, allowed, backend, paths, words)
  {
    hide Searched, Legal, Forbidden, Reported, Justified, InOrder, Complete, ByWords;
    ghost var notes, done;
    var parent, forbidden;
    parent, forbidden, notes, done := Search(backend, g, allowed);
    paths := [];
    for k := 0 to |forbidden|
      invariant |paths| == k
      invariant forall i :: 0 <= i < k ==> Reported(g, allowed, backend, notes, forbidden[i], paths[i])
    {
      ForbiddenFound(g, allowed, backend, parent, forbidden, notes, done, k);
      var path := Rebuild(g, allowed, backend, parent, notes, forbidden[k]);
      RebuiltReported(g, allowed, backend, notes, forbidden[k], path);
      paths := paths + [path];
    }
    words := WordsOf(g, allowed, backend, parent, forbidden, notes, done, paths);
    AllLegal(g, allowed, backend, notes, forbidden, paths);
    EachOnce(g, allowed, backend, parent, forbidden, notes, done, paths);
    AllCovered(g, allowed, backend, parent, forbidden, notes, done, paths);
  }

  lemma WordsOf(g: Graph, allowed: set<Crate>, backend: Crate, parent: Parents, forbidden: seq<Crate>, notes: Notes,
                done: set<Crate>, paths: seq<seq<Crate>>)
    returns (words: seq<seq<nat>>)
    requires Searched(g, allowed, backend, parent, forbidden, notes, done) && |paths| == |forbidden|
    requires forall i :: 0 <= i < |paths| ==> Reported(g, allowed, backend, notes, forbidden[i], paths[i])
    ensures ByWords(g, allowed, backend, paths, words)
  {
    hide Legal, Forbidden, Split, Tree, Done, Spelled, Before;
    assert forall i :: 0 <= i < |paths| ==> Reported(g, allowed, backend, notes, forbidden[i], paths[i]);
    words := seq(|paths|, i requires 0 <= i < |paths| => notes[forbidden[i]]);
    forall i, path, word | 0 <= i < |paths| && Legal(g, allowed, backend, path) && Spelled(g, path, word)
                           && SameEnd(path, paths[i])
      ensures NotAfter(words[i], word)
    {
      Nearest(g, allowed, backend, parent, forbidden, notes, done, path, word);
    }
  }

  lemma RebuiltReported(g: Graph, allowed: set<Crate>, backend: Crate, words: Notes, c: Crate, path: seq<Crate>)
    requires Legal(g, allowed, backend, path) && path[|path| - 1] == c && Forbidden(allowed, backend, c)
    requires c in words && Spelled(g, path, words[c])
    ensures Reported(g, allowed, backend, words, c, path)
  {
  }

  lemma AllLegal(g: Graph, allowed: set<Crate>, backend: Crate, words: Notes, forbidden: seq<Crate>,
                 paths: seq<seq<Crate>>)
    requires |paths| == |forbidden|
    requires forall i :: 0 <= i < |paths| ==> Reported(g, allowed, backend, words, forbidden[i], paths[i])
    ensures Justified(g, allowed, backend, paths)
  {
    hide Legal, Forbidden, Spelled;
    forall i | 0 <= i < |paths|
      ensures Legal(g, allowed, backend, paths[i]) && Forbidden(allowed, backend, paths[i][|paths[i]| - 1])
    {
      assert Reported(g, allowed, backend, words, forbidden[i], paths[i]);
    }
  }

  lemma AllCovered(g: Graph, allowed: set<Crate>, backend: Crate, parent: Parents, forbidden: seq<Crate>, words: Notes,
                   done: set<Crate>, paths: seq<seq<Crate>>)
    requires Searched(g, allowed, backend, parent, forbidden, words, done) && |paths| == |forbidden|
    requires forall i :: 0 <= i < |paths| ==> Reported(g, allowed, backend, words, forbidden[i], paths[i])
    ensures Complete(g, allowed, backend, paths)
  {
    hide Searched, Legal, Forbidden, Before;
    forall path | Legal(g, allowed, backend, path) && Forbidden(allowed, backend, path[|path| - 1])
      ensures exists i :: 0 <= i < |paths| && Shortest(paths[i], path)
    {
      var word := SomeWord(g, allowed, backend, path);
      Nearest(g, allowed, backend, parent, forbidden, words, done, path, word);
      var i := Position(g, allowed, backend, parent, forbidden, words, done, path[|path| - 1]);
      assert Reported(g, allowed, backend, words, forbidden[i], paths[i]);
      NotLonger(words[path[|path| - 1]], word);
      assert Shortest(paths[i], path);
    }
  }

  lemma NotLonger(p: seq<nat>, q: seq<nat>)
    requires NotAfter(p, q)
    ensures |p| <= |q|
  {
  }

  lemma EachOnce(g: Graph, allowed: set<Crate>, backend: Crate, parent: Parents, forbidden: seq<Crate>, words: Notes,
                 done: set<Crate>, paths: seq<seq<Crate>>)
    requires Searched(g, allowed, backend, parent, forbidden, words, done) && |paths| == |forbidden|
    requires forall i :: 0 <= i < |paths| ==> Reported(g, allowed, backend, words, forbidden[i], paths[i])
    ensures InOrder(paths)
  {
    hide Legal, Forbidden, Tree, Done, Split, Before;
    forall i, j | 0 <= i < j < |paths|
      ensures paths[i] != [] && paths[j] != [] && |paths[i]| <= |paths[j]|
              && paths[i][|paths[i]| - 1] != paths[j][|paths[j]| - 1]
    {
      assert Reported(g, allowed, backend, words, forbidden[i], paths[i]);
      assert Reported(g, allowed, backend, words, forbidden[j], paths[j]);
      NotLonger(words[forbidden[i]], words[forbidden[j]]);
      BeforeOneWay(words[forbidden[i]], words[forbidden[j]]);
    }
  }

  lemma Position(g: Graph, allowed: set<Crate>, backend: Crate, parent: Parents, forbidden: seq<Crate>, words: Notes,
                 done: set<Crate>, c: Crate)
    returns (i: nat)
    requires Searched(g, allowed, backend, parent, forbidden, words, done) && c in words
    requires Forbidden(allowed, backend, c)
    ensures i < |forbidden| && forbidden[i] == c
  {
    hide Tree, Done, Ascends;
    assert c in forbidden;
    i :| 0 <= i < |forbidden| && forbidden[i] == c;
  }

  ghost predicate Shortest(path: seq<Crate>, other: seq<Crate>) {
    path != [] && other != [] && path[|path| - 1] == other[|other| - 1] && |path| <= |other|
  }

  ghost predicate Reported(g: Graph, allowed: set<Crate>, backend: Crate, words: Notes, c: Crate, path: seq<Crate>) {
    && Legal(g, allowed, backend, path) && path[|path| - 1] == c && Forbidden(allowed, backend, c)
    && c in words && Spelled(g, path, words[c])
  }

  lemma ForbiddenFound(g: Graph, allowed: set<Crate>, backend: Crate, parent: Parents, forbidden: seq<Crate>,
                       words: Notes, done: set<Crate>, k: nat)
    requires Searched(g, allowed, backend, parent, forbidden, words, done) && k < |forbidden|
    ensures Tree(g, allowed, backend, parent, words)
    ensures forbidden[k] in parent && forbidden[k] in words && Forbidden(allowed, backend, forbidden[k])
  {
    assert forbidden[k] in forbidden;
    assert forbidden[k] in words.Keys;
  }
}
