/** Deciding which integer parts of concats need no buffer. */
module StringAdmission {
  import opened Sequences
  import opened StringParts
  import opened Wrappers

  datatype Candidate = Candidate(kind: Kind, block: nat, definition: nat, concat: Option<nat>, free: Option<nat>,
                                 invalid: bool)

  function Made(s: Stmt, t: Temp, b: nat, p: nat): Option<Candidate> {
    if s.ToStr? && s.lhs == t && s.kind.Some? then Some(Candidate(s.kind.value, b, p, None, None, false)) else None
  }

  /** The last integer conversion into t before a position. */
  function LastMade(f: Func, t: Temp, b: nat, p: nat): Option<Candidate>
    requires (b < |f.blocks| && p <= |f.blocks[b].stmts|) || (b == |f.blocks| && p == 0)
    decreases b, p
  {
    if p > 0 then
      var here := Made(f.blocks[b].stmts[p - 1], t, b, p - 1);
      if here.Some? then here else LastMade(f, t, b, p - 1)
    else if b > 0 then LastMade(f, t, b - 1, |f.blocks[b - 1].stmts|)
    else None
  }

  /** What a read at a site does to a candidate. */
  function Note(f: Func, c: Candidate, s: Site): Candidate
    requires s.0 < |f.blocks| && s.1 <= |f.blocks[s.0].stmts|
  {
    if s.1 == |f.blocks[s.0].stmts| || c.block != s.0 || s.1 <= c.definition then c.(invalid := true)
    else if f.blocks[s.0].stmts[s.1].Concat? then
      c.(concat := Some(s.1), invalid := c.invalid || c.concat.Some?)
    else if f.blocks[s.0].stmts[s.1].Free? then
      c.(free := Some(s.1), invalid := c.invalid || c.free.Some?)
    else c.(invalid := true)
  }

  ghost predicate SitesIn(f: Func, ss: seq<Site>) {
    forall k :: 0 <= k < |ss| ==> ss[k].0 < |f.blocks| && ss[k].1 <= |f.blocks[ss[k].0].stmts|
  }

  ghost function Notes(f: Func, c: Candidate, ss: seq<Site>): Candidate
    requires SitesIn(f, ss)
  {
    if ss == [] then c else Note(f, Notes(f, c, ss[..|ss| - 1]), ss[|ss| - 1])
  }

  lemma NotesMore(f: Func, c: Candidate, ss: seq<Site>, s: Site)
    requires SitesIn(f, ss) && s.0 < |f.blocks| && s.1 <= |f.blocks[s.0].stmts|
    ensures SitesIn(f, ss + [s]) && Notes(f, c, ss + [s]) == Note(f, Notes(f, c, ss), s)
  {
    assert (ss + [s])[..|ss|] == ss;
  }

  lemma {:induction false} OccurrencesIn(f: Func, t: Temp, b: nat, p: nat)
    requires (b < |f.blocks| && p <= |f.blocks[b].stmts| + 1) || (b == |f.blocks| && p == 0)
    ensures SitesIn(f, Occurrences(f, t, b, p))
    decreases b, p
  {
    if p > 0 {
      OccurrencesIn(f, t, b, p - 1);
    } else if b > 0 {
      OccurrencesIn(f, t, b - 1, |f.blocks[b - 1].stmts| + 1);
    }
  }

  // ---- what the notes mean ----

  /** The reads a valid candidate has noted. */
  ghost function Noted(c: Candidate): multiset<Site> {
    (if c.concat.Some? then multiset{(c.block, c.concat.value)} else multiset{})
    + (if c.free.Some? then multiset{(c.block, c.free.value)} else multiset{})
  }

  ghost predicate Proper(f: Func, c: Candidate) {
    && (c.concat.Some? ==> c.block < |f.blocks| && c.definition < c.concat.value < |f.blocks[c.block].stmts|
                           && f.blocks[c.block].stmts[c.concat.value].Concat?)
    && (c.free.Some? ==> c.block < |f.blocks| && c.definition < c.free.value < |f.blocks[c.block].stmts|
                         && f.blocks[c.block].stmts[c.free.value].Free?)
  }

  lemma NoteSound(f: Func, c: Candidate, s: Site)
    requires s.0 < |f.blocks| && s.1 <= |f.blocks[s.0].stmts|
    ensures Note(f, c, s).kind == c.kind && Note(f, c, s).block == c.block && Note(f, c, s).definition == c.definition
    ensures !Note(f, c, s).invalid ==> !c.invalid && Noted(Note(f, c, s)) == Noted(c) + multiset{s}
    ensures !Note(f, c, s).invalid && Proper(f, c) ==> Proper(f, Note(f, c, s))
  {
    var r := Note(f, c, s);
    if !r.invalid {
      hide Noted;
      assert s == (c.block, s.1);
      if f.blocks[s.0].stmts[s.1].Concat? {
        NotedConcat(c, s.1);
      } else {
        NotedFree(c, s.1);
      }
    }
  }

  lemma NotedConcat(c: Candidate, x: nat)
    requires c.concat.None?
    ensures Noted(c.(concat := Some(x))) == Noted(c) + multiset{(c.block, x)}
  {
  }

  lemma NotedFree(c: Candidate, x: nat)
    requires c.free.None?
    ensures Noted(c.(free := Some(x))) == Noted(c) + multiset{(c.block, x)}
  {
  }

  lemma {:induction false} NotesSound(f: Func, c: Candidate, ss: seq<Site>)
    requires SitesIn(f, ss) && c.concat.None? && c.free.None? && !c.invalid
    ensures var r := Notes(f, c, ss);
            && r.kind == c.kind && r.block == c.block && r.definition == c.definition
            && (!r.invalid ==> multiset(ss) == Noted(r) && Proper(f, r))
  {
    if ss != [] {
      var n := |ss| - 1;
      NotesSound(f, c, ss[..n]);
      NoteSound(f, Notes(f, c, ss[..n]), ss[n]);
      assert ss == ss[..n] + [ss[n]];
      hide Note, Noted, Proper;
    }
  }

  /** Reads at one concat and one free, in either order, are noted without fault. */
  lemma NotesComplete(f: Func, c: Candidate, ss: seq<Site>, x: nat, y: nat)
    requires SitesIn(f, ss) && c.concat.None? && c.free.None? && !c.invalid && c.block < |f.blocks|
    requires c.definition < x < |f.blocks[c.block].stmts| && f.blocks[c.block].stmts[x].Concat?
    requires c.definition < y < |f.blocks[c.block].stmts| && f.blocks[c.block].stmts[y].Free?
    requires multiset(ss) == multiset{(c.block, x), (c.block, y)}
    ensures Notes(f, c, ss) == c.(concat := Some(x), free := Some(y))
  {
    var a: Site, b: Site := (c.block, x), (c.block, y);
    assert |ss| == |multiset(ss)| == 2;
    assert ss == [ss[0]] + [ss[1]];
    assert ss[0] in multiset(ss) && ss[1] in multiset(ss);
    assert multiset(ss) == multiset{ss[0], ss[1]};
    assert (ss[0] == a && ss[1] == b) || (ss[0] == b && ss[1] == a);
    assert ss[..1] == [ss[0]] && ss[..1][..0] == [];
    assert Notes(f, c, ss[..1]) == Note(f, c, ss[0]);
  }

  // ---- the last conversion and the only definition ----

  lemma {:induction false} LastMadeSites(f: Func, t: Temp, b: nat, p: nat)
    requires (b < |f.blocks| && p <= |f.blocks[b].stmts|) || (b == |f.blocks| && p == 0)
    ensures var c := LastMade(f, t, b, p);
            && (c.Some? ==>
                  && c.value.block < |f.blocks| && c.value.definition < |f.blocks[c.value.block].stmts|
                  && c == Made(f.blocks[c.value.block].stmts[c.value.definition], t, c.value.block, c.value.definition)
                  && (c.value.block, c.value.definition) in Definitions(f, t, b, p))
            && (c.None? ==>
                  forall s: Site :: s in Definitions(f, t, b, p) && s.0 < |f.blocks| && s.1 < |f.blocks[s.0].stmts| ==>
                    Made(f.blocks[s.0].stmts[s.1], t, s.0, s.1).None?)
    decreases b, p
  {
    if p > 0 {
      LastMadeSites(f, t, b, p - 1);
    } else if b > 0 {
      LastMadeSites(f, t, b - 1, |f.blocks[b - 1].stmts|);
    }
  }

  /** The final test on a candidate. */
  predicate Accepts(t: Temp, c: Option<Candidate>, definitions: nat) {
    && c.Some? && t != 0 && c.value.concat.Some? && c.value.free.Some?
    && !c.value.invalid && definitions == 1 && c.value.free.value > c.value.concat.value
  }

  /** The candidate t ends up with. */
  ghost function Final(f: Func, t: Temp): Option<Candidate> {
    OccurrencesIn(f, t, |f.blocks|, 0);
    match LastMade(f, t, |f.blocks|, 0)
    case None => None
    case Some(c) => Some(Notes(f, c, AllOccurrences(f, t)))
  }

  ghost function DefinitionCount(f: Func, t: Temp): nat {
    |AllDefinitions(f, t)| + Count(f.params, t) + ParamCount(f, t, |f.blocks|)
  }

  /** Accepted parts live as they should. */
  lemma AcceptsSound(f: Func, t: Temp)
    requires Accepts(t, Final(f, t), DefinitionCount(f, t))
    ensures var c := Final(f, t).value;
            && Lives(f, t, Life(c.block, c.definition, c.concat.value, c.free.value))
            && MadeAs(f, Life(c.block, c.definition, c.concat.value, c.free.value), c.kind)
  {
    hide Notes, Occurrences, LastMade, Noted;
    var c0 := LastMade(f, t, |f.blocks|, 0).value;
    OccurrencesIn(f, t, |f.blocks|, 0);
    LastMadeSites(f, t, |f.blocks|, 0);
    NotesSound(f, c0, AllOccurrences(f, t));
    var c := Final(f, t).value;
    var ds := AllDefinitions(f, t);
    assert (c.block, c.definition) in ds;
    assert |ds| == 1 && ds == [ds[0]];
    NotedBoth(c);
  }

  lemma NotedBoth(c: Candidate)
    requires c.concat.Some? && c.free.Some?
    ensures Noted(c) == multiset{(c.block, c.concat.value), (c.block, c.free.value)}
  {
  }

  /** Parts that live as they should are accepted. */
  lemma AcceptsComplete(f: Func, t: Temp, l: Life)
    requires Lives(f, t, l)
    ensures Accepts(t, Final(f, t), DefinitionCount(f, t))
  {
    hide Notes, Occurrences, LastMade;
    OccurrencesIn(f, t, |f.blocks|, 0);
    LastMadeSites(f, t, |f.blocks|, 0);
    var stmts := f.blocks[l.block].stmts;
    var site: Site := (l.block, l.made);
    assert AllDefinitions(f, t)[0] == site;
    assert site in AllDefinitions(f, t);
    assert Made(stmts[l.made], t, site.0, site.1).Some?;
    var c := LastMade(f, t, |f.blocks|, 0).value;
    assert (c.block, c.definition) == site;
    NotesComplete(f, c, AllOccurrences(f, t), l.joined, l.freed);
  }

  // ---- the two walks ----

  ghost predicate Counted(f: Func, b: nat, p: nat, candidates: seq<Option<Candidate>>, definitions: seq<nat>)
    requires (b < |f.blocks| && p <= |f.blocks[b].stmts|) || (b == |f.blocks| && p == 0)
  {
    && |candidates| == |definitions| == f.count
    && forall t :: 0 <= t < f.count ==>
         candidates[t] == LastMade(f, t, b, p) && definitions[t] == |Definitions(f, t, b, p)|
  }

  method FindMade(f: Func) returns (candidates: seq<Option<Candidate>>, definitions: seq<nat>)
    requires WellFormed(f)
    ensures Counted(f, |f.blocks|, 0, candidates, definitions)
  {
    candidates, definitions := seq(f.count, _ => None), seq(f.count, _ => 0);
    for b := 0 to |f.blocks|
      invariant Counted(f, b, 0, candidates, definitions)
    {
      assert BlockFits(f.blocks[b], f.count);
      for p := 0 to |f.blocks[b].stmts|
        invariant Counted(f, b, p, candidates, definitions)
      {
        var s := f.blocks[b].stmts[p];
        assert StmtFits(s, f.count);
        if Def(s).Some? {
          var lhs := Def(s).value;
          definitions := definitions[lhs := definitions[lhs] + 1];
          if s.ToStr? && s.kind.Some? {
            candidates := candidates[lhs := Some(Candidate(s.kind.value, b, p, None, None, false))];
          }
        }
      }
    }
  }

  method CountParams(f: Func, definitions: seq<nat>) returns (r: seq<nat>)
    requires WellFormed(f) && |definitions| == f.count
    ensures |r| == f.count
    ensures forall t :: 0 <= t < f.count ==> r[t] == definitions[t] + Count(f.params, t) + ParamCount(f, t, |f.blocks|)
  {
    r := AddEach(definitions, f.params);
    for b := 0 to |f.blocks|
      invariant |r| == f.count
      invariant forall t :: 0 <= t < f.count ==> r[t] == definitions[t] + Count(f.params, t) + ParamCount(f, t, b)
    {
      assert BlockFits(f.blocks[b], f.count);
      r := AddEach(r, f.blocks[b].params);
    }
  }

  method AddEach(counts: seq<nat>, ts: seq<Temp>) returns (r: seq<nat>)
    requires Amir.Below(ts, |counts|)
    ensures |r| == |counts| && forall t :: 0 <= t < |counts| ==> r[t] == counts[t] + Count(ts, t)
  {
    r := counts;
    for k := 0 to |ts|
      invariant |r| == |counts| && forall t :: 0 <= t < |counts| ==> r[t] == counts[t] + Count(ts[..k], t)
    {
      r := r[ts[k] := r[ts[k]] + 1];
      assert ts[..k + 1][..k] == ts[..k];
    }
    assert ts[..|ts|] == ts;
  }

  /** Each candidate has noted the reads before a position, and n(t) more at that site. */
  ghost predicate Followed(f: Func, b: nat, p: nat, ts: seq<Temp>, made: seq<Option<Candidate>>,
                           candidates: seq<Option<Candidate>>)
    requires (b < |f.blocks| && p <= |f.blocks[b].stmts| + 1) || (b == |f.blocks| && p == 0)
  {
    && |candidates| == |made| == f.count
    && forall t :: 0 <= t < f.count ==> FollowedOne(f, t, b, p, Count(ts, t), made[t], candidates[t])
  }

  ghost predicate FollowedOne(f: Func, t: Temp, b: nat, p: nat, n: nat, made: Option<Candidate>, c: Option<Candidate>)
    requires (b < |f.blocks| && p <= |f.blocks[b].stmts| + 1) || (b == |f.blocks| && p == 0)
  {
    var sites := Occurrences(f, t, b, p) + Copies((b, p), n);
    SitesIn(f, sites) && c == if made.None? then None else Some(Notes(f, made.value, sites))
  }

  lemma FollowMore(f: Func, t: Temp, b: nat, p: nat, n: nat, made: Option<Candidate>, c: Option<Candidate>)
    requires b < |f.blocks| && p <= |f.blocks[b].stmts| && FollowedOne(f, t, b, p, n, made, c)
    ensures FollowedOne(f, t, b, p, n + 1, made, if c.Some? then Some(Note(f, c.value, (b, p))) else None)
  {
    hide Notes, Note, Occurrences;
    var sites := Occurrences(f, t, b, p) + Copies((b, p), n);
    assert Occurrences(f, t, b, p) + Copies((b, p), n + 1) == sites + [(b, p)];
    if made.Some? {
      NotesMore(f, made.value, sites, (b, p));
    } else {
      assert SitesIn(f, sites + [(b, p)]);
    }
  }

  /** The operands of one site, one after the other. */
  method FollowSite(f: Func, b: nat, p: nat, ghost made: seq<Option<Candidate>>, candidates: seq<Option<Candidate>>)
    returns (r: seq<Option<Candidate>>)
    requires WellFormed(f) && b < |f.blocks| && p <= |f.blocks[b].stmts| && Followed(f, b, p, [], made, candidates)
    ensures Followed(f, b, p + 1, [], made, r)
  {
    hide FollowedOne, Note;
    var ts := OperandsAt(f, b, p);
    OperandsFit(f, b, p);
    r := candidates;
    assert ts[..0] == [];
    for k := 0 to |ts|
      invariant Followed(f, b, p, ts[..k], made, r)
    {
      ghost var was := r;
      if r[ts[k]].Some? {
        r := r[ts[k] := Some(Note(f, r[ts[k]].value, (b, p)))];
      }
      assert ts[..k + 1][..k] == ts[..k];
      forall t | 0 <= t < f.count
        ensures FollowedOne(f, t, b, p, Count(ts[..k + 1], t), made[t], r[t])
      {
        assert FollowedOne(f, t, b, p, Count(ts[..k], t), made[t], was[t]);
        if t == ts[k] {
          FollowMore(f, t, b, p, Count(ts[..k], t), made[t], was[t]);
        }
      }
    }
    assert ts[..|ts|] == ts;
    forall t | 0 <= t < f.count
      ensures FollowedOne(f, t, b, p + 1, Count([], t), made[t], r[t])
    {
      FollowNext(f, t, b, p, made[t], r[t]);
    }
  }

  lemma OperandsFit(f: Func, b: nat, p: nat)
    requires WellFormed(f) && b < |f.blocks| && p <= |f.blocks[b].stmts|
    ensures Amir.Below(OperandsAt(f, b, p), f.count)
  {
    assert BlockFits(f.blocks[b], f.count);
    if p < |f.blocks[b].stmts| {
      assert StmtFits(f.blocks[b].stmts[p], f.count);
    }
  }

  lemma FollowNext(f: Func, t: Temp, b: nat, p: nat, made: Option<Candidate>, c: Option<Candidate>)
    requires b < |f.blocks| && p <= |f.blocks[b].stmts|
    requires FollowedOne(f, t, b, p, Count(OperandsAt(f, b, p), t), made, c)
    ensures FollowedOne(f, t, b, p + 1, 0, made, c)
  {
    hide Notes;
    var sites := Occurrences(f, t, b, p) + Copies((b, p), Count(OperandsAt(f, b, p), t));
    assert Occurrences(f, t, b, p + 1) == sites;
    assert sites + Copies((b, p + 1), 0) == sites;
  }

  lemma FollowBlock(f: Func, t: Temp, b: nat, made: Option<Candidate>, c: Option<Candidate>)
    requires b < |f.blocks| && FollowedOne(f, t, b, |f.blocks[b].stmts| + 1, 0, made, c)
    ensures FollowedOne(f, t, b + 1, 0, 0, made, c)
  {
    hide Notes;
    var sites := Occurrences(f, t, b, |f.blocks[b].stmts| + 1);
    assert Occurrences(f, t, b + 1, 0) == sites;
    assert sites + Copies((b, |f.blocks[b].stmts| + 1), 0) == sites;
    assert sites + Copies((b + 1, 0), 0) == sites;
  }

  lemma FollowStart(f: Func, t: Temp, made: Option<Candidate>)
    ensures FollowedOne(f, t, 0, 0, 0, made, made)
  {
    assert Occurrences(f, t, 0, 0) + Copies((0, 0), 0) == [];
  }

  method FollowReads(f: Func, made: seq<Option<Candidate>>) returns (r: seq<Option<Candidate>>)
    requires WellFormed(f) && |made| == f.count
    ensures Followed(f, |f.blocks|, 0, [], made, r)
  {
    hide FollowedOne;
    r := made;
    forall t | 0 <= t < f.count
      ensures FollowedOne(f, t, 0, 0, 0, made[t], r[t])
    {
      FollowStart(f, t, made[t]);
    }
    for b := 0 to |f.blocks|
      invariant Followed(f, b, 0, [], made, r)
    {
      for p := 0 to |f.blocks[b].stmts| + 1
        invariant Followed(f, b, p, [], made, r)
      {
        r := FollowSite(f, b, p, made, r);
      }
      forall t | 0 <= t < f.count
        ensures FollowedOne(f, t, b + 1, 0, 0, made[t], r[t])
      {
        FollowBlock(f, t, b, made[t], r[t]);
      }
    }
  }

  lemma FollowedAll(f: Func, t: Temp, made: Option<Candidate>, c: Option<Candidate>)
    requires FollowedOne(f, t, |f.blocks|, 0, 0, made, c) && made == LastMade(f, t, |f.blocks|, 0)
    ensures c == Final(f, t)
  {
    hide Notes, LastMade;
    assert AllOccurrences(f, t) + Copies((|f.blocks|, 0), 0) == AllOccurrences(f, t);
  }

  /** An entry for t exactly when its life is as required, with the kind of its source. */
  ghost predicate Decided(f: Func, t: Temp, k: Option<Kind>) {
    && (k.Some? <==> exists l: Life :: Lives(f, t, l))
    && forall l: Life :: k.Some? && Lives(f, t, l) ==> MadeAs(f, l, k.value)
  }

  /** The admission. */
  method IntegerConcatTemps(f: Func) returns (r: seq<Option<Kind>>)
    requires WellFormed(f)
    ensures |r| == f.count
    ensures forall t :: 0 <= t < f.count ==> Decided(f, t, r[t])
  {
    hide Lives, FollowedOne, Final, LastMade, Definitions;
    var made, counts := FindMade(f);
    var definitions := CountParams(f, counts);
    var candidates := FollowReads(f, made);
    r := [];
    for t := 0 to f.count
      invariant |r| == t
      invariant forall u :: 0 <= u < t ==> Decided(f, u, r[u])
    {
      assert FollowedOne(f, t, |f.blocks|, 0, 0, made[t], candidates[t]);
      FollowedAll(f, t, made[t], candidates[t]);
      var c := candidates[t];
      DecideOne(f, t);
      r := r + [if Accepts(t, c, definitions[t]) then Some(c.value.kind) else None];
    }
  }

  lemma DecideOne(f: Func, t: Temp)
    ensures Decided(f, t, if Accepts(t, Final(f, t), DefinitionCount(f, t)) then Some(Final(f, t).value.kind) else None)
  {
    hide Final, Lives;
    if Accepts(t, Final(f, t), DefinitionCount(f, t)) {
      AcceptsSound(f, t);
      var c := Final(f, t).value;
      forall l: Life | Lives(f, t, l)
        ensures MadeAs(f, l, c.kind)
      {
        SameMaking(f, t, l, Life(c.block, c.definition, c.concat.value, c.free.value));
      }
    } else {
      forall l: Life
        ensures !Lives(f, t, l)
      {
        if Lives(f, t, l) {
          AcceptsComplete(f, t, l);
        }
      }
    }
  }

  lemma SameMaking(f: Func, t: Temp, l: Life, k: Life)
    requires Lives(f, t, l) && Lives(f, t, k)
    ensures l.block == k.block && l.made == k.made
  {
    assert AllDefinitions(f, t)[0] == (l.block, l.made);
  }

  // ---- the admission is safe to act on ----

  /** The parts whose buffers are left out. */
  function Held(r: seq<Option<Kind>>): Omitted {
    map t: nat | t < |r| && r[t].Some? :: r[t].value
  }

  lemma HeldAdmitted(f: Func, r: seq<Option<Kind>>) returns (lives: map<Temp, Life>)
    requires |r| == f.count && forall t :: 0 <= t < |r| ==> Decided(f, t, r[t])
    ensures Admitted(f, Held(r), lives)
  {
    hide Lives;
    lives := map t: nat | t < |r| && r[t].Some? :: LifeOf(f, t, r[t]);
    assert lives.Keys == Held(r).Keys;
  }

  ghost function LifeOf(f: Func, t: Temp, k: Option<Kind>): (l: Life)
    requires k.Some? && Decided(f, t, k)
    ensures Lives(f, t, l) && MadeAs(f, l, k.value)
  {
    var l: Life :| Lives(f, t, l);
    l
  }

  /** Acting on the admission shows in no run from the entry of a block: next to the run that makes and
      frees every buffer, every string built and every operand seen is the same. */
  lemma OmittedRun(f: Func, r: seq<Option<Kind>>, show: Show, compute: Compute, decide: Decide, view: View,
                   b: nat, env: seq<Value>, w: World, fuel: nat)
    requires WellFormed(f) && |r| == f.count && |env| == f.count
    requires forall t :: 0 <= t < |r| ==> Decided(f, t, r[t])
    requires Unseen(f, compute, decide, Held(r).Keys, view)
    ensures Shown(f, Held(r).Keys, view, Run(f, show, compute, decide, map[], {}, b, 0, env, w, fuel))
         == Shown(f, Held(r).Keys, view, Run(f, show, compute, decide, Held(r), Held(r).Keys, b, 0, env, w, fuel))
  {
    hide Admitted, Decided, Run, Unseen, Shown;
    var lives := HeldAdmitted(f, r);
    assert lives.Keys == Held(r).Keys by { AdmittedKeys(f, Held(r), lives); }
    SameRun(f, Held(r), lives, show, compute, decide, b, 0, env, env, w, fuel);
    RunShown(f, show, compute, decide, Held(r).Keys, view, b, 0, env, w, w, fuel);
  }

  lemma AdmittedKeys(f: Func, held: Omitted, lives: map<Temp, Life>)
    requires Admitted(f, held, lives)
    ensures lives.Keys == held.Keys
  {
  }
}
