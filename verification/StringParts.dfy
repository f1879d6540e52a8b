/** Functions that build strings from integers, and which integer parts need no buffer. */
module StringParts {
  import Amir
  import opened Sequences
  import opened Wrappers

  type Temp = Amir.Temp
  type World = Amir.World

  datatype Kind = Signed | Unsigned

  datatype Part = Text(text: string) | Piece(temp: Temp)

  /** `ToStr` has a kind when its source is an integer. */
  datatype Stmt =
    | ToStr(lhs: Temp, src: Temp, kind: Option<Kind>)
    | Concat(lhs: Temp, parts: seq<Part>)
    | Free(temp: Temp)
    | Other(def: Option<Temp>, uses: seq<Temp>)

  datatype Block = Block(params: seq<Temp>, stmts: seq<Stmt>, leaves: seq<Temp>)

  datatype Func = Func(count: nat, params: seq<Temp>, blocks: seq<Block>)

  function Pieces(parts: seq<Part>): seq<Temp> {
    if parts == [] then []
    else (if parts[0].Piece? then [parts[0].temp] else []) + Pieces(parts[1..])
  }

  function Operands(s: Stmt): seq<Temp> {
    match s
    case ToStr(_, src, _) => [src]
    case Concat(_, parts) => Pieces(parts)
    case Free(t) => [t]
    case Other(_, uses) => uses
  }

  function Def(s: Stmt): Option<Temp> {
    match s
    case ToStr(lhs, _, _) => Some(lhs)
    case Concat(lhs, _) => Some(lhs)
    case Free(_) => None
    case Other(def, _) => def
  }

  predicate StmtFits(s: Stmt, n: nat) {
    Amir.Below(Operands(s), n) && (Def(s).Some? ==> Def(s).value < n)
  }

  predicate BlockFits(b: Block, n: nat) {
    Amir.Below(b.params, n) && Amir.Below(b.leaves, n) && forall k :: 0 <= k < |b.stmts| ==> StmtFits(b.stmts[k], n)
  }

  predicate WellFormed(f: Func) {
    f.count > 0 && Amir.Below(f.params, f.count) && forall b :: 0 <= b < |f.blocks| ==> BlockFits(f.blocks[b], f.count)
  }

  // ---- occurrences ----

  type Site = (nat, nat)

  function Copies(s: Site, n: nat): (r: seq<Site>)
    ensures |r| == n && forall k :: 0 <= k < n ==> r[k] == s
  {
    seq(n, _ => s)
  }

  /** The operands at a site; the terminator's come after the last statement. */
  function OperandsAt(f: Func, b: nat, p: nat): seq<Temp>
    requires b < |f.blocks| && p <= |f.blocks[b].stmts|
  {
    if p < |f.blocks[b].stmts| then Operands(f.blocks[b].stmts[p]) else f.blocks[b].leaves
  }

  /** Each operand that reads t, in order, before position p of block b. */
  function Occurrences(f: Func, t: Temp, b: nat, p: nat): seq<Site>
    requires (b < |f.blocks| && p <= |f.blocks[b].stmts| + 1) || (b == |f.blocks| && p == 0)
    decreases b, p
  {
    if p > 0 then
      Occurrences(f, t, b, p - 1) + Copies((b, p - 1), Count(OperandsAt(f, b, p - 1), t))
    else if b > 0 then Occurrences(f, t, b - 1, |f.blocks[b - 1].stmts| + 1)
    else []
  }

  /** All of them. */
  function AllOccurrences(f: Func, t: Temp): seq<Site> {
    Occurrences(f, t, |f.blocks|, 0)
  }

  /** Definitions of t before a position: by statements. */
  function Definitions(f: Func, t: Temp, b: nat, p: nat): seq<Site>
    requires (b < |f.blocks| && p <= |f.blocks[b].stmts|) || (b == |f.blocks| && p == 0)
    decreases b, p
  {
    if p > 0 then
      Definitions(f, t, b, p - 1) + if Def(f.blocks[b].stmts[p - 1]) == Some(t) then [(b, p - 1)] else []
    else if b > 0 then Definitions(f, t, b - 1, |f.blocks[b - 1].stmts|)
    else []
  }

  function AllDefinitions(f: Func, t: Temp): seq<Site> {
    Definitions(f, t, |f.blocks|, 0)
  }

  /** How often t is a block parameter in the first b blocks. */
  function ParamCount(f: Func, t: Temp, b: nat): nat
    requires b <= |f.blocks|
  {
    if b == 0 then 0 else ParamCount(f, t, b - 1) + Count(f.blocks[b - 1].params, t)
  }

  /** Every site that reads t is among its occurrences, and the other way round. */
  lemma {:induction false} OccurrenceSites(f: Func, t: Temp, b: nat, p: nat, s: Site)
    requires (b < |f.blocks| && p <= |f.blocks[b].stmts| + 1) || (b == |f.blocks| && p == 0)
    ensures s in Occurrences(f, t, b, p) <==>
              && s.0 < |f.blocks| && s.1 <= |f.blocks[s.0].stmts| && (s.0 < b || (s.0 == b && s.1 < p))
              && t in OperandsAt(f, s.0, s.1)
    decreases b, p
  {
    hide Operands, Count;
    if p > 0 {
      OccurrenceSites(f, t, b, p - 1, s);
      CountIn(OperandsAt(f, b, p - 1), t);
      var n := Count(OperandsAt(f, b, p - 1), t);
      var here := Copies((b, p - 1), n);
      assert s in here <==> n > 0 && s == (b, p - 1) by {
        if n > 0 {
          assert here[0] == (b, p - 1);
        }
      }
    } else if b > 0 {
      OccurrenceSites(f, t, b - 1, |f.blocks[b - 1].stmts| + 1, s);
    }
  }

  lemma {:induction false} DefinitionSites(f: Func, t: Temp, b: nat, p: nat, s: Site)
    requires (b < |f.blocks| && p <= |f.blocks[b].stmts|) || (b == |f.blocks| && p == 0)
    ensures s in Definitions(f, t, b, p) <==>
              && s.0 < |f.blocks| && s.1 < |f.blocks[s.0].stmts| && (s.0 < b || (s.0 == b && s.1 < p))
              && Def(f.blocks[s.0].stmts[s.1]) == Some(t)
    decreases b, p
  {
    if p > 0 {
      DefinitionSites(f, t, b, p - 1, s);
    } else if b > 0 {
      DefinitionSites(f, t, b - 1, |f.blocks[b - 1].stmts|, s);
    }
  }

  // ---- admission ----

  /** The life of an integer part: made at `made`, joined into a string at `joined`, freed at `freed`. */
  datatype Life = Life(block: nat, made: nat, joined: nat, freed: nat)

  /** One definition, from an integer; two reads, the concat and after it the free, all in one block. */
  ghost predicate Lives(f: Func, t: Temp, l: Life) {
    && t != 0 && l.block < |f.blocks| && l.made < l.joined < l.freed < |f.blocks[l.block].stmts|
    && (var stmts := f.blocks[l.block].stmts;
        && stmts[l.made].ToStr? && stmts[l.made].lhs == t && stmts[l.made].kind.Some?
        && stmts[l.joined].Concat? && stmts[l.freed].Free?)
    && AllDefinitions(f, t) == [(l.block, l.made)]
    && Count(f.params, t) == 0 && ParamCount(f, t, |f.blocks|) == 0
    && multiset(AllOccurrences(f, t)) == multiset{(l.block, l.joined), (l.block, l.freed)}
  }

  /** The life begins with a conversion of the given kind. */
  ghost predicate MadeAs(f: Func, l: Life, k: Kind) {
    && l.block < |f.blocks| && l.made < |f.blocks[l.block].stmts|
    && f.blocks[l.block].stmts[l.made].ToStr? && f.blocks[l.block].stmts[l.made].kind == Some(k)
  }

  lemma LifeReads(f: Func, t: Temp, l: Life, b: nat, p: nat)
    requires Lives(f, t, l) && b < |f.blocks| && p <= |f.blocks[b].stmts| && t in OperandsAt(f, b, p)
    ensures b == l.block && (p == l.joined || p == l.freed)
  {
    var s: Site := (b, p);
    OccurrenceSites(f, t, |f.blocks|, 0, s);
    assert s in multiset(AllOccurrences(f, t));
  }

  lemma LifeDefs(f: Func, t: Temp, l: Life, b: nat, p: nat)
    requires Lives(f, t, l) && b < |f.blocks| && p < |f.blocks[b].stmts| && Def(f.blocks[b].stmts[p]) == Some(t)
    ensures b == l.block && p == l.made
  {
    var s: Site := (b, p);
    DefinitionSites(f, t, |f.blocks|, 0, s);
    assert s in AllDefinitions(f, t);
  }

  lemma {:induction false} NotParam(f: Func, t: Temp, b: nat, c: nat)
    requires c < b <= |f.blocks| && ParamCount(f, t, b) == 0
    ensures t !in f.blocks[c].params
  {
    if c == b - 1 {
      CountIn(f.blocks[c].params, t);
    } else {
      NotParam(f, t, b - 1, c);
    }
  }

  // ---- runs ----

  datatype Value = Int(n: int) | Str(text: string)

  /** The text of a value, by the kind of its source. */
  type Show = (Option<Kind>, Value) -> string

  /** What a statement makes of its operands and of the world. */
  type Compute = (nat, nat, seq<Value>, World) -> (Value, World)

  datatype Leave = Stop | Enter(block: nat, values: seq<Value>, world: World)

  type Decide = (nat, seq<Value>, World) -> Leave

  datatype Event = Event(block: nat, position: nat, values: seq<Value>, world: World)

  /** Temporaries whose buffer is left out, with the kind of their source. */
  type Omitted = map<Temp, Kind>

  function Read(env: seq<Value>, ts: seq<Temp>): seq<Value>
    requires Amir.Below(ts, |env|)
  {
    seq(|ts|, k requires 0 <= k < |ts| => env[ts[k]])
  }

  /** A part in a concat: an omitted one is a captured integer, shown on the spot. */
  function PieceText(show: Show, held: Omitted, v: Value, t: Temp): string {
    if t in held then show(Some(held[t]), v) else if v.Str? then v.text else ""
  }

  function Joined(show: Show, held: Omitted, env: seq<Value>, parts: seq<Part>): string
    requires Amir.Below(Pieces(parts), |env|)
  {
    if parts == [] then ""
    else if parts[0].Text? then
      assert Pieces(parts) == Pieces(parts[1..]);
      parts[0].text + Joined(show, held, env, parts[1..])
    else
      assert Pieces(parts)[0] == parts[0].temp && Pieces(parts)[1..] == Pieces(parts[1..]);
      PieceText(show, held, env[parts[0].temp], parts[0].temp) + Joined(show, held, env, parts[1..])
  }

  datatype Outcome = Outcome(env: seq<Value>, world: World, seen: seq<Event>)

  /** One statement. With `held` a part is captured instead of shown, and its free does nothing; the
      making and freeing of the parts in `quiet` are not events. */
  function Step(f: Func, show: Show, compute: Compute, held: Omitted, quiet: set<Temp>,
                b: nat, p: nat, env: seq<Value>, w: World): (r: Outcome)
    requires WellFormed(f) && |env| == f.count && b < |f.blocks| && p < |f.blocks[b].stmts|
    ensures |r.env| == |env|
  {
    assert BlockFits(f.blocks[b], f.count);
    var s := f.blocks[b].stmts[p];
    assert StmtFits(s, f.count);
    match s
    case ToStr(lhs, src, kind) =>
      assert Operands(s)[0] == src;
      if lhs in held then Outcome(env[lhs := env[src]], w, [])
      else
        var v := Str(show(kind, env[src]));
        if lhs in quiet then Outcome(env[lhs := v], w, [])
        else Outcome(env[lhs := v], compute(b, p, [v], w).1, [Event(b, p, [v], w)])
    case Concat(lhs, parts) =>
      var v := Str(Joined(show, held, env, parts));
      Outcome(env[lhs := v], compute(b, p, [v], w).1, [Event(b, p, [v], w)])
    case Free(t) =>
      assert Operands(s)[0] == t;
      if t in quiet then Outcome(env, w, [])
      else Outcome(env, compute(b, p, [env[t]], w).1, [Event(b, p, [env[t]], w)])
    case Other(def, uses) =>
      var vs := Read(env, uses);
      var r := compute(b, p, vs, w);
      Outcome(if def.Some? then env[def.value := r.0] else env, r.1, [Event(b, p, vs, w)])
  }

  function Assign(env: seq<Value>, ts: seq<Temp>, vs: seq<Value>): (r: seq<Value>)
    requires Amir.Below(ts, |env|) && |ts| == |vs|
    ensures |r| == |env|
    decreases |ts|
  {
    if ts == [] then env else Assign(env[ts[0] := vs[0]], ts[1..], vs[1..])
  }

  /** A run from position p of block b; a terminator also hands over the result temporary. */
  function Run(f: Func, show: Show, compute: Compute, decide: Decide, held: Omitted, quiet: set<Temp>,
               b: nat, p: nat, env: seq<Value>, w: World, fuel: nat): seq<Event>
    requires WellFormed(f) && |env| == f.count
    decreases fuel
  {
    if fuel == 0 || b >= |f.blocks| || p > |f.blocks[b].stmts| then []
    else if p < |f.blocks[b].stmts| then
      var o := Step(f, show, compute, held, quiet, b, p, env, w);
      o.seen + Run(f, show, compute, decide, held, quiet, b, p + 1, o.env, o.world, fuel - 1)
    else
      assert BlockFits(f.blocks[b], f.count);
      var vs := Read(env, f.blocks[b].leaves) + [env[0]];
      var e := Event(b, p, vs, w);
      match decide(b, vs, w)
      case Stop => [e]
      case Enter(c, values, w') =>
        if c >= |f.blocks| || |values| != |f.blocks[c].params| then [e]
        else
          assert BlockFits(f.blocks[c], f.count);
          [e] + Run(f, show, compute, decide, held, quiet, c, 0, Assign(env, f.blocks[c].params, values), w', fuel - 1)
  }

  // ---- leaving the buffers out ----

  /** Every omitted part is one that lives as it should; `lives` tells how. */
  ghost predicate Admitted(f: Func, held: Omitted, lives: map<Temp, Life>) {
    && lives.Keys == held.Keys
    && forall t :: t in held ==>
         t < f.count && Lives(f, t, lives[t]) && MadeAs(f, lives[t], held[t])
  }

  /** The two environments at position p of block b: the same, except that an omitted part holds its
      integer; once made, its string would be the integer's text. */
  ghost predicate Matches(held: Omitted, lives: map<Temp, Life>, show: Show, b: nat, p: nat,
                          env: seq<Value>, captured: seq<Value>)
    requires lives.Keys == held.Keys
  {
    && |env| == |captured|
    && (forall t: nat :: t < |env| && t !in held ==> env[t] == captured[t])
    && forall t: nat :: t in held && t < |env| && lives[t].block == b && lives[t].made < p ==>
         env[t] == Str(show(Some(held[t]), captured[t]))
  }

  lemma ReadMatches(f: Func, held: Omitted, lives: map<Temp, Life>, show: Show, b: nat, p: nat,
                    env: seq<Value>, captured: seq<Value>)
    requires WellFormed(f) && Admitted(f, held, lives) && Matches(held, lives, show, b, p, env, captured)
    requires |env| == f.count
    requires b < |f.blocks| && p <= |f.blocks[b].stmts|
    requires p == |f.blocks[b].stmts| || f.blocks[b].stmts[p].Other? || f.blocks[b].stmts[p].ToStr?
    ensures forall k :: 0 <= k < |OperandsAt(f, b, p)| ==> OperandsAt(f, b, p)[k] !in held
    ensures Amir.Below(OperandsAt(f, b, p), f.count)
    ensures Read(env, OperandsAt(f, b, p)) == Read(captured, OperandsAt(f, b, p))
  {
    hide Lives;
    assert BlockFits(f.blocks[b], f.count);
    if p < |f.blocks[b].stmts| {
      assert StmtFits(f.blocks[b].stmts[p], f.count);
    }
    forall k | 0 <= k < |OperandsAt(f, b, p)|
      ensures OperandsAt(f, b, p)[k] !in held
    {
      var t := OperandsAt(f, b, p)[k];
      if t in held {
        LifeReads(f, t, lives[t], b, p);
        LifeKinds(f, t, lives[t]);
      }
    }
  }

  lemma LifeKinds(f: Func, t: Temp, l: Life)
    requires Lives(f, t, l)
    ensures l.block < |f.blocks| && l.made < l.joined < l.freed < |f.blocks[l.block].stmts|
    ensures f.blocks[l.block].stmts[l.made].ToStr? && f.blocks[l.block].stmts[l.made].lhs == t
    ensures f.blocks[l.block].stmts[l.joined].Concat? && f.blocks[l.block].stmts[l.freed].Free?
    ensures t != 0
  {
  }

  lemma {:induction false} JoinedMatches(show: Show, held: Omitted, env: seq<Value>, captured: seq<Value>,
                                         parts: seq<Part>)
    requires |env| == |captured| && Amir.Below(Pieces(parts), |env|)
    requires forall k :: 0 <= k < |Pieces(parts)| ==> PieceMatches(show, held, env, captured, Pieces(parts)[k])
    ensures Joined(show, map[], env, parts) == Joined(show, held, captured, parts)
  {
    if parts != [] {
      if parts[0].Piece? {
        assert Pieces(parts)[0] == parts[0].temp && Pieces(parts)[1..] == Pieces(parts[1..]);
        assert PieceMatches(show, held, env, captured, Pieces(parts)[0]);
      } else {
        assert Pieces(parts) == Pieces(parts[1..]);
      }
      JoinedMatches(show, held, env, captured, parts[1..]);
    }
  }

  ghost predicate PieceMatches(show: Show, held: Omitted, env: seq<Value>, captured: seq<Value>, t: Temp) {
    && t < |env| == |captured|
    && (if t in held then env[t] == Str(show(Some(held[t]), captured[t])) else env[t] == captured[t])
  }

  lemma ConcatMatches(f: Func, held: Omitted, lives: map<Temp, Life>, show: Show, b: nat, p: nat,
                      env: seq<Value>, captured: seq<Value>)
    requires WellFormed(f) && Admitted(f, held, lives) && Matches(held, lives, show, b, p, env, captured)
    requires |env| == f.count
    requires b < |f.blocks| && p < |f.blocks[b].stmts| && f.blocks[b].stmts[p].Concat?
    requires Amir.Below(Pieces(f.blocks[b].stmts[p].parts), f.count)
    ensures var parts := f.blocks[b].stmts[p].parts;
            Joined(show, map[], env, parts) == Joined(show, held, captured, parts)
  {
    hide Lives, Joined;
    var ts := Pieces(f.blocks[b].stmts[p].parts);
    forall k | 0 <= k < |ts|
      ensures PieceMatches(show, held, env, captured, ts[k])
    {
      var t := ts[k];
      if t in held {
        assert t in OperandsAt(f, b, p);
        LifeReads(f, t, lives[t], b, p);
        LifeKinds(f, t, lives[t]);
      }
    }
    JoinedMatches(show, held, env, captured, f.blocks[b].stmts[p].parts);
  }

  /** Defining an unomitted temporary alike on both sides. */
  lemma DefineBoth(f: Func, held: Omitted, lives: map<Temp, Life>, show: Show, b: nat, p: nat,
                   env: seq<Value>, captured: seq<Value>, d: Option<Temp>, v: Value)
    requires Admitted(f, held, lives) && Matches(held, lives, show, b, p, env, captured)
    requires b < |f.blocks| && p < |f.blocks[b].stmts| && Def(f.blocks[b].stmts[p]) == d
    requires d.Some? ==> d.value < |env| && d.value !in held
    ensures d.Some? ==> Matches(held, lives, show, b, p + 1, env[d.value := v], captured[d.value := v])
    ensures d.None? ==> Matches(held, lives, show, b, p + 1, env, captured)
  {
    hide Lives;
    forall t: nat | t in held && lives[t].block == b
      ensures lives[t].made != p
    {
      LifeKinds(f, t, lives[t]);
    }
  }

  /** Making an omitted part: its string on one side, its integer on the other. */
  lemma DefinePart(f: Func, held: Omitted, lives: map<Temp, Life>, show: Show, b: nat, p: nat,
                   env: seq<Value>, captured: seq<Value>, d: Temp, n: Value)
    requires Admitted(f, held, lives) && Matches(held, lives, show, b, p, env, captured)
    requires b < |f.blocks| && p < |f.blocks[b].stmts| && Def(f.blocks[b].stmts[p]) == Some(d)
    requires d in held && d < |env|
    ensures Matches(held, lives, show, b, p + 1, env[d := Str(show(Some(held[d]), n))], captured[d := n])
  {
    hide Lives;
    forall t: nat | t in held && t != d && lives[t].block == b
      ensures lives[t].made != p
    {
      LifeKinds(f, t, lives[t]);
    }
  }

  /** One statement leaves matching environments, the same world and the same events. */
  lemma StepMatches(f: Func, held: Omitted, lives: map<Temp, Life>, show: Show, compute: Compute, b: nat, p: nat,
                    env: seq<Value>, captured: seq<Value>, w: World)
    requires WellFormed(f) && Admitted(f, held, lives) && Matches(held, lives, show, b, p, env, captured)
    requires |env| == f.count
    requires b < |f.blocks| && p < |f.blocks[b].stmts|
    ensures var o := Step(f, show, compute, map[], held.Keys, b, p, env, w);
            var o' := Step(f, show, compute, held, held.Keys, b, p, captured, w);
            && Matches(held, lives, show, b, p + 1, o.env, o'.env) && o.world == o'.world && o.seen == o'.seen
  {
    hide Lives;
    assert BlockFits(f.blocks[b], f.count);
    var s := f.blocks[b].stmts[p];
    assert StmtFits(s, f.count);
    var d := Def(s);
    if d.Some? && d.value in held {
      LifeDefs(f, d.value, lives[d.value], b, p);
      LifeKinds(f, d.value, lives[d.value]);
    }
    match s
    case ToStr(lhs, src, kind) =>
      assert OperandsAt(f, b, p)[0] == src;
      ReadMatches(f, held, lives, show, b, p, env, captured);
      if lhs in held {
        DefinePart(f, held, lives, show, b, p, env, captured, lhs, captured[src]);
      } else {
        DefineBoth(f, held, lives, show, b, p, env, captured, d, Str(show(kind, env[src])));
      }
    case Concat(lhs, parts) =>
      ConcatMatches(f, held, lives, show, b, p, env, captured);
      DefineBoth(f, held, lives, show, b, p, env, captured, d, Str(Joined(show, map[], env, parts)));
    case Free(t) =>
      assert Operands(s)[0] == t;
      DefineBoth(f, held, lives, show, b, p, env, captured, d, env[0]);
    case Other(def, uses) =>
      ReadMatches(f, held, lives, show, b, p, env, captured);
      assert Read(env, uses) == Read(captured, uses);
      DefineBoth(f, held, lives, show, b, p, env, captured, d, compute(b, p, Read(env, uses), w).0);
  }

  lemma {:induction false} AssignMatches(held: Omitted, lives: map<Temp, Life>, show: Show, c: nat,
                                         env: seq<Value>, captured: seq<Value>, ts: seq<Temp>, vs: seq<Value>)
    requires lives.Keys == held.Keys && |env| == |captured| && |ts| == |vs| && Amir.Below(ts, |env|)
    requires forall t: nat :: t < |env| && t !in held ==> env[t] == captured[t]
    requires forall k :: 0 <= k < |ts| ==> ts[k] !in held
    ensures Matches(held, lives, show, c, 0, Assign(env, ts, vs), Assign(captured, ts, vs))
    decreases |ts|
  {
    if ts != [] {
      AssignMatches(held, lives, show, c, env[ts[0] := vs[0]], captured[ts[0] := vs[0]], ts[1..], vs[1..]);
    }
  }

  lemma ParamsKept(f: Func, held: Omitted, lives: map<Temp, Life>, c: nat)
    requires Admitted(f, held, lives) && c < |f.blocks|
    ensures lives.Keys == held.Keys && 0 !in held
    ensures forall k :: 0 <= k < |f.blocks[c].params| ==> f.blocks[c].params[k] !in held
  {
    forall t | t in held
      ensures t != 0 && t !in f.blocks[c].params
    {
      NotParam(f, t, |f.blocks|, c);
    }
  }

  /** Leaving the buffers out is invisible: every concat makes the same string, and every other
      statement and terminator sees the same operands, on every path. */
  lemma {:induction false} SameRun(f: Func, held: Omitted, lives: map<Temp, Life>, show: Show, compute: Compute,
                                   decide: Decide, b: nat, p: nat, env: seq<Value>, captured: seq<Value>, w: World,
                                   fuel: nat)
    requires WellFormed(f) && Admitted(f, held, lives) && |env| == f.count
    requires Matches(held, lives, show, b, p, env, captured)
    ensures Run(f, show, compute, decide, map[], held.Keys, b, p, env, w, fuel)
            == Run(f, show, compute, decide, held, held.Keys, b, p, captured, w, fuel)
    decreases fuel
  {
    hide Admitted, Step;
    if fuel == 0 || b >= |f.blocks| || p > |f.blocks[b].stmts| {
    } else if p < |f.blocks[b].stmts| {
      StepMatches(f, held, lives, show, compute, b, p, env, captured, w);
      var o := Step(f, show, compute, map[], held.Keys, b, p, env, w);
      var o' := Step(f, show, compute, held, held.Keys, b, p, captured, w);
      SameRun(f, held, lives, show, compute, decide, b, p + 1, o.env, o'.env, o.world, fuel - 1);
    } else {
      assert BlockFits(f.blocks[b], f.count);
      ReadMatches(f, held, lives, show, b, p, env, captured);
      ParamsKept(f, held, lives, b);
      var vs := Read(env, f.blocks[b].leaves) + [env[0]];
      assert vs == Read(captured, f.blocks[b].leaves) + [captured[0]];
      var next := decide(b, vs, w);
      if next.Enter? && next.block < |f.blocks| && |next.values| == |f.blocks[next.block].params| {
        var c := next.block;
        assert BlockFits(f.blocks[c], f.count);
        ParamsKept(f, held, lives, c);
        AssignMatches(held, lives, show, c, env, captured, f.blocks[c].params, next.values);
        SameRun(f, held, lives, show, compute, decide, c, 0, Assign(env, f.blocks[c].params, next.values),
                Assign(captured, f.blocks[c].params, next.values), next.world, fuel - 1);
      }
    }
  }

  // ---- what making and freeing the buffers does to the world ----

  /** What can be told of the world from outside. */
  type View = World -> World

  /** The statement makes or frees one of the given buffers. */
  predicate MakesOrFrees(f: Func, quiet: set<Temp>, b: nat, p: nat) {
    && b < |f.blocks| && p < |f.blocks[b].stmts|
    && match f.blocks[b].stmts[p]
       case ToStr(lhs, _, _) => lhs in quiet
       case Free(t) => t in quiet
       case _ => false
  }

  ghost predicate SameLeave(view: View, x: Leave, y: Leave) {
    x == y || (x.Enter? && y.Enter? && x.block == y.block && x.values == y.values && view(x.world) == view(y.world))
  }

  /** Making or freeing one of the buffers does not show, and nothing depends on what does not show. */
  ghost predicate Unseen(f: Func, compute: Compute, decide: Decide, quiet: set<Temp>, view: View) {
    && (forall b, p, vs, w :: MakesOrFrees(f, quiet, b, p) ==> view(compute(b, p, vs, w).1) == view(w))
    && (forall b, p, vs, w, w' :: view(w) == view(w') ==>
          && compute(b, p, vs, w).0 == compute(b, p, vs, w').0
          && view(compute(b, p, vs, w).1) == view(compute(b, p, vs, w').1))
    && (forall b, vs, w, w' :: view(w) == view(w') ==> SameLeave(view, decide(b, vs, w), decide(b, vs, w')))
  }

  /** The events of a run as seen from outside. */
  function Shown(f: Func, quiet: set<Temp>, view: View, es: seq<Event>): seq<Event> {
    if es == [] then []
    else
      var e := es[0];
      (if MakesOrFrees(f, quiet, e.block, e.position) then [] else [e.(world := view(e.world))])
      + Shown(f, quiet, view, es[1..])
  }

  lemma {:induction false} ShownConcat(f: Func, quiet: set<Temp>, view: View, a: seq<Event>, b: seq<Event>)
    ensures Shown(f, quiet, view, a + b) == Shown(f, quiet, view, a) + Shown(f, quiet, view, b)
  {
    if a == [] {
      assert a + b == b;
    } else {
      assert (a + b)[0] == a[0] && (a + b)[1..] == a[1..] + b;
      ShownConcat(f, quiet, view, a[1..], b);
    }
  }

  lemma EventShown(f: Func, quiet: set<Temp>, view: View, b: nat, p: nat, vs: seq<Value>, w: World, w': World)
    requires view(w) == view(w')
    ensures Shown(f, quiet, view, [Event(b, p, vs, w)]) == Shown(f, quiet, view, [Event(b, p, vs, w')])
  {
    assert [Event(b, p, vs, w)][1..] == [] && [Event(b, p, vs, w')][1..] == [];
  }

  lemma EventHidden(f: Func, quiet: set<Temp>, view: View, b: nat, p: nat, vs: seq<Value>, w: World)
    requires MakesOrFrees(f, quiet, b, p)
    ensures Shown(f, quiet, view, [Event(b, p, vs, w)]) == Shown(f, quiet, view, [])
  {
    assert [Event(b, p, vs, w)][1..] == [];
  }

  lemma StepShown(f: Func, show: Show, compute: Compute, decide: Decide, quiet: set<Temp>, view: View, b: nat, p: nat,
                  env: seq<Value>, w: World, w': World)
    requires WellFormed(f) && |env| == f.count && b < |f.blocks| && p < |f.blocks[b].stmts|
    requires Unseen(f, compute, decide, quiet, view) && view(w) == view(w')
    ensures var o := Step(f, show, compute, map[], {}, b, p, env, w);
            var o' := Step(f, show, compute, map[], quiet, b, p, env, w');
            && o.env == o'.env && view(o.world) == view(o'.world)
            && Shown(f, quiet, view, o.seen) == Shown(f, quiet, view, o'.seen)
  {
    hide Shown, Joined, Read;
    assert BlockFits(f.blocks[b], f.count);
    assert StmtFits(f.blocks[b].stmts[p], f.count);
    var o, o' := Step(f, show, compute, map[], {}, b, p, env, w), Step(f, show, compute, map[], quiet, b, p, env, w');
    var vs := o.seen[0].values;
    assert o.seen == [Event(b, p, vs, w)] && o.world == compute(b, p, vs, w).1;
    if MakesOrFrees(f, quiet, b, p) {
      assert o'.seen == [] && o'.world == w';
      EventHidden(f, quiet, view, b, p, vs, w);
    } else {
      assert o'.seen == [Event(b, p, vs, w')] && o'.world == compute(b, p, vs, w').1;
      EventShown(f, quiet, view, b, p, vs, w, w');
    }
  }

  /** With the buffers made and freed as usual the run looks the same as with that left out. */
  lemma {:induction false} RunShown(f: Func, show: Show, compute: Compute, decide: Decide, quiet: set<Temp>, view: View,
                                    b: nat, p: nat, env: seq<Value>, w: World, w': World, fuel: nat)
    requires WellFormed(f) && |env| == f.count && Unseen(f, compute, decide, quiet, view) && view(w) == view(w')
    ensures Shown(f, quiet, view, Run(f, show, compute, decide, map[], {}, b, p, env, w, fuel))
         == Shown(f, quiet, view, Run(f, show, compute, decide, map[], quiet, b, p, env, w', fuel))
    decreases fuel
  {
    hide Step, Shown;
    if fuel == 0 || b >= |f.blocks| || p > |f.blocks[b].stmts| {
    } else if p < |f.blocks[b].stmts| {
      var o, o' := Step(f, show, compute, map[], {}, b, p, env, w), Step(f, show, compute, map[], quiet, b, p, env, w');
      StepShown(f, show, compute, decide, quiet, view, b, p, env, w, w');
      RunShown(f, show, compute, decide, quiet, view, b, p + 1, o.env, o.world, o'.world, fuel - 1);
      ShownConcat(f, quiet, view, o.seen, Run(f, show, compute, decide, map[], {}, b, p + 1, o.env, o.world, fuel - 1));
      ShownConcat(f, quiet, view, o'.seen,
                  Run(f, show, compute, decide, map[], quiet, b, p + 1, o.env, o'.world, fuel - 1));
    } else {
      assert BlockFits(f.blocks[b], f.count);
      var vs := Read(env, f.blocks[b].leaves) + [env[0]];
      var next, next' := decide(b, vs, w), decide(b, vs, w');
      assert SameLeave(view, next, next');
      var e, e' := [Event(b, p, vs, w)], [Event(b, p, vs, w')];
      EventShown(f, quiet, view, b, p, vs, w, w');
      if next.Enter? && next.block < |f.blocks| && |next.values| == |f.blocks[next.block].params| {
        var c := next.block;
        assert BlockFits(f.blocks[c], f.count);
        var env' := Assign(env, f.blocks[c].params, next.values);
        RunShown(f, show, compute, decide, quiet, view, c, 0, env', next.world, next'.world, fuel - 1);
        ShownConcat(f, quiet, view, e, Run(f, show, compute, decide, map[], {}, c, 0, env', next.world, fuel - 1));
        ShownConcat(f, quiet, view, e', Run(f, show, compute, decide, map[], quiet, c, 0, env', next'.world, fuel - 1));
      }
    }
  }

  // ---- balance ----

  /** The omitted parts that have a buffer at position p of block b when nothing is left out. */
  ghost function Buffered(held: Omitted, lives: map<Temp, Life>, b: nat, p: nat): set<Temp>
    requires lives.Keys == held.Keys
  {
    set t | t in held && lives[t].block == b && lives[t].made < p <= lives[t].freed
  }

  /** What a statement does to the buffers of those parts. */
  function Buffers(s: Stmt, held: Omitted, live: set<Temp>): set<Temp> {
    match s
    case ToStr(lhs, _, _) => if lhs in held then live + {lhs} else live
    case Free(t) => if t in held then live - {t} else live
    case _ => live
  }

  /** What is left out adds up to nothing: in every block each part gets its buffer when it has none,
      gives it back when it has one, and holds none when the block is entered or left. So no buffer is
      lost, none is freed twice, and dropping both statements keeps the balance. */
  lemma Balanced(f: Func, held: Omitted, lives: map<Temp, Life>, b: nat, p: nat)
    requires Admitted(f, held, lives) && b < |f.blocks| && p < |f.blocks[b].stmts|
    ensures var s := f.blocks[b].stmts[p];
            && Buffered(held, lives, b, 0) == {} && Buffered(held, lives, b, |f.blocks[b].stmts|) == {}
            && Buffered(held, lives, b, p + 1) == Buffers(s, held, Buffered(held, lives, b, p))
            && (s.ToStr? && s.lhs in held ==> s.lhs !in Buffered(held, lives, b, p))
            && (s.Free? && s.temp in held ==> s.temp in Buffered(held, lives, b, p))
  {
    hide Lives;
    var s := f.blocks[b].stmts[p];
    forall t | t in held
      ensures lives[t].made < lives[t].freed
      ensures lives[t].block == b ==> lives[t].freed < |f.blocks[b].stmts|
      ensures lives[t].block == b && lives[t].made == p <==> s.ToStr? && s.lhs == t
      ensures lives[t].block == b && lives[t].freed == p <==> s.Free? && s.temp == t
    {
      LifeEnds(f, t, lives[t], b, p);
    }
  }

  lemma LifeEnds(f: Func, t: Temp, l: Life, b: nat, p: nat)
    requires Lives(f, t, l) && b < |f.blocks| && p < |f.blocks[b].stmts|
    ensures l.made < l.freed && (l.block == b ==> l.freed < |f.blocks[b].stmts|)
    ensures l.block == b && l.made == p <==> f.blocks[b].stmts[p].ToStr? && f.blocks[b].stmts[p].lhs == t
    ensures l.block == b && l.freed == p <==> f.blocks[b].stmts[p].Free? && f.blocks[b].stmts[p].temp == t
  {
    hide Lives;
    var s := f.blocks[b].stmts[p];
    LifeKinds(f, t, l);
    if s.ToStr? && s.lhs == t {
      LifeDefs(f, t, l, b, p);
    }
    if s.Free? && s.temp == t {
      assert OperandsAt(f, b, p)[0] == t;
      LifeReads(f, t, l, b, p);
    }
    FreedTemp(f, t, l);
  }

  lemma FreedTemp(f: Func, t: Temp, l: Life)
    requires Lives(f, t, l)
    ensures f.blocks[l.block].stmts[l.freed].temp == t
  {
    var s: Site := (l.block, l.freed);
    OccurrenceSites(f, t, |f.blocks|, 0, s);
    assert s in multiset(AllOccurrences(f, t));
    assert t in OperandsAt(f, l.block, l.freed);
  }
}
