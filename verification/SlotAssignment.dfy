/** Finding the confined temporaries and giving them slots. */
module SlotAssignment {
  import opened Amir
  import opened TempSlots
  import opened FewestSlots
  import opened Wrappers

  type Site = (nat, nat)

  /** Sites come in block order, then in statement order. */
  predicate Earlier(s: Site, b: nat, p: nat) {
    s.0 < b || (s.0 == b && s.1 < p)
  }

  /** What the walk has noted about t when it reaches position p of block b. */
  ghost predicate Noted(f: Func, t: Temp, b: nat, p: nat, definition: Option<Site>, repeated: bool, uses: seq<Site>) {
    && (forall s: Site :: Earlier(s, b, p) && DefAt(f, t, s.0, s.1) ==>
          definition.Some? && (repeated || definition.value == s))
    && (definition.Some? ==> Earlier(definition.value, b, p) && DefAt(f, t, definition.value.0, definition.value.1))
    && (repeated ==> definition.Some?
                     && exists s: Site :: Earlier(s, b, p) && DefAt(f, t, s.0, s.1) && s != definition.value)
    && forall s: Site :: s in uses <==> Earlier(s, b, p) && UseAt(f, t, s.0, s.1)
  }

  ghost predicate AllNoted(f: Func, b: nat, p: nat, definitions: seq<Option<Site>>, repeated: seq<bool>,
                           uses: seq<seq<Site>>) {
    && |definitions| == |repeated| == |uses| == |f.types|
    && forall t :: 0 <= t < |f.types| ==> Noted(f, t, b, p, definitions[t], repeated[t], uses[t])
  }

  /** One site: its definition first, then its operands. */
  lemma NoteSite(f: Func, t: Temp, b: nat, p: nat, definition: Option<Site>, repeated: bool, uses: seq<Site>,
                 definition': Option<Site>, repeated': bool, uses': seq<Site>)
    requires Noted(f, t, b, p, definition, repeated, uses)
    requires b < |f.blocks|
    requires if DefAt(f, t, b, p) then definition' == Some((b, p)) && repeated' == (repeated || definition.Some?)
             else definition' == definition && repeated' == repeated
    requires forall s: Site :: s in uses' <==> s in uses || (s == (b, p) && UseAt(f, t, b, p))
    ensures Noted(f, t, b, p + 1, definition', repeated', uses')
  {
    hide DefAt, UseAt;
    assert forall s: Site :: Earlier(s, b, p + 1) <==> Earlier(s, b, p) || s == (b, p);
    if repeated' {
      if repeated && !DefAt(f, t, b, p) {
        assert exists s: Site :: Earlier(s, b, p + 1) && DefAt(f, t, s.0, s.1) && s != definition'.value;
      } else {
        assert Earlier(definition.value, b, p + 1) && definition.value != definition'.value;
      }
    }
  }

  lemma NextBlock(f: Func, b: nat, definitions: seq<Option<Site>>, repeated: seq<bool>, uses: seq<seq<Site>>)
    requires b < |f.blocks| && AllNoted(f, b, |f.blocks[b].stmts| + 1, definitions, repeated, uses)
    ensures AllNoted(f, b + 1, 0, definitions, repeated, uses)
  {
    hide DefAt, UseAt;
    forall t | 0 <= t < |f.types|
      ensures Noted(f, t, b + 1, 0, definitions[t], repeated[t], uses[t])
    {
      NextBlockOne(f, t, b, definitions[t], repeated[t], uses[t]);
    }
  }

  lemma NextBlockOne(f: Func, t: Temp, b: nat, definition: Option<Site>, repeated: bool, uses: seq<Site>)
    requires b < |f.blocks| && Noted(f, t, b, |f.blocks[b].stmts| + 1, definition, repeated, uses)
    ensures Noted(f, t, b + 1, 0, definition, repeated, uses)
  {
    var n := |f.blocks[b].stmts| + 1;
    assert forall s: Site :: DefAt(f, t, s.0, s.1) ==> (Earlier(s, b + 1, 0) <==> Earlier(s, b, n));
    assert forall s: Site :: UseAt(f, t, s.0, s.1) ==> (Earlier(s, b + 1, 0) <==> Earlier(s, b, n));
  }

  method NoteUses(ts: seq<Temp>, b: nat, p: nat, uses: seq<seq<Site>>) returns (r: seq<seq<Site>>)
    requires Below(ts, |uses|)
    ensures |r| == |uses|
    ensures forall t :: 0 <= t < |uses| ==> forall s: Site :: s in r[t] <==> s in uses[t] || (s == (b, p) && t in ts)
  {
    r := uses;
    for k := 0 to |ts|
      invariant |r| == |uses|
      invariant forall t :: 0 <= t < |uses| ==>
                  forall s: Site :: s in r[t] <==> s in uses[t] || (s == (b, p) && t in ts[..k])
    {
      r := r[ts[k] := r[ts[k]] + [(b, p)]];
      assert ts[..k + 1] == ts[..k] + [ts[k]];
    }
    assert ts[..|ts|] == ts;
  }

  /** One statement, or with no definition one terminator. */
  method NoteOne(f: Func, def: Option<Temp>, ts: seq<Temp>, b: nat, p: nat,
                 definitions: seq<Option<Site>>, repeated: seq<bool>, uses: seq<seq<Site>>)
    returns (definitions': seq<Option<Site>>, repeated': seq<bool>, uses': seq<seq<Site>>)
    requires AllNoted(f, b, p, definitions, repeated, uses) && b < |f.blocks|
    requires Below(ts, |f.types|) && (def.Some? ==> def.value < |f.types|)
    requires forall t: nat :: DefAt(f, t, b, p) <==> def == Some(t)
    requires forall t: nat :: UseAt(f, t, b, p) <==> t in ts
    ensures AllNoted(f, b, p + 1, definitions', repeated', uses')
  {
    hide DefAt, UseAt, Noted;
    definitions', repeated' := definitions, repeated;
    if def.Some? {
      var t := def.value;
      repeated' := repeated'[t := repeated'[t] || definitions'[t].Some?];
      definitions' := definitions'[t := Some((b, p))];
    }
    uses' := NoteUses(ts, b, p, uses);
    forall t | 0 <= t < |f.types|
      ensures Noted(f, t, b, p + 1, definitions'[t], repeated'[t], uses'[t])
    {
      NoteSite(f, t, b, p, definitions[t], repeated[t], uses[t], definitions'[t], repeated'[t], uses'[t]);
    }
  }

  method Walk(f: Func) returns (definitions: seq<Option<Site>>, repeated: seq<bool>, uses: seq<seq<Site>>)
    requires WellFormed(f)
    ensures AllNoted(f, |f.blocks|, 0, definitions, repeated, uses)
  {
    var n := |f.types|;
    definitions, repeated, uses := seq(n, _ => None), seq(n, _ => false), seq(n, _ => []);
    for b := 0 to |f.blocks|
      invariant AllNoted(f, b, 0, definitions, repeated, uses)
    {
      var block := f.blocks[b];
      assert BlockFits(block, n);
      for p := 0 to |block.stmts|
        invariant AllNoted(f, b, p, definitions, repeated, uses)
      {
        hide AllNoted;
        assert StmtFits(block.stmts[p], n);
        definitions, repeated, uses :=
          NoteOne(f, block.stmts[p].def, block.stmts[p].uses, b, p, definitions, repeated, uses);
      }
      hide AllNoted;
      definitions, repeated, uses :=
        NoteOne(f, None, block.leaves, b, |block.stmts|, definitions, repeated, uses);
      NextBlock(f, b, definitions, repeated, uses);
    }
  }

  method FindDedicated(f: Func) returns (dedicated: seq<bool>)
    requires WellFormed(f)
    ensures |dedicated| == |f.types| && forall t :: 0 <= t < |dedicated| ==> (dedicated[t] <==> Dedicated(f, t))
  {
    dedicated := seq(|f.types|, _ => false);
    dedicated := dedicated[0 := true];
    dedicated := MarkAll(dedicated, f.params);
    for b := 0 to |f.blocks|
      invariant |dedicated| == |f.types|
      invariant forall t :: 0 <= t < |dedicated| ==>
                  (dedicated[t] <==> t == 0 || t in f.params || exists c :: 0 <= c < b && t in f.blocks[c].params)
    {
      assert BlockFits(f.blocks[b], |f.types|);
      dedicated := MarkAll(dedicated, f.blocks[b].params);
    }
  }

  method MarkAll(marks: seq<bool>, ts: seq<Temp>) returns (r: seq<bool>)
    requires Below(ts, |marks|)
    ensures |r| == |marks| && forall t :: 0 <= t < |marks| ==> (r[t] <==> marks[t] || t in ts)
  {
    r := marks;
    for k := 0 to |ts|
      invariant |r| == |marks| && forall t :: 0 <= t < |marks| ==> (r[t] <==> marks[t] || t in ts[..k])
    {
      r := r[ts[k] := true];
      assert ts[..k + 1] == ts[..k] + [ts[k]];
    }
    assert ts[..|ts|] == ts;
  }

  // ---- spans ----

  lemma NoSpan(f: Func, t: Temp, definition: Option<Site>, repeated: bool, uses: seq<Site>, i: Interval)
    requires Noted(f, t, |f.blocks|, 0, definition, repeated, uses) && Confined(f, i) && i.temp == t
    ensures !repeated && definition == Some((i.block, i.start))
    ensures forall s: Site :: s in uses ==> s.0 == i.block && i.start < s.1 <= i.end
  {
    hide Dedicated;
    var site: Site := (i.block, i.start);
    assert DefAt(f, t, site.0, site.1) && Earlier(site, |f.blocks|, 0);
  }

  lemma IsSpan(f: Func, t: Temp, definition: Option<Site>, uses: seq<Site>, end: nat)
    requires t < |f.types| && !Dedicated(f, t) && definition.Some?
    requires Noted(f, t, |f.blocks|, 0, definition, false, uses)
    requires forall k :: 0 <= k < |uses| ==> uses[k].0 == definition.value.0 && definition.value.1 < uses[k].1 <= end
    requires definition.value.1 <= end && (end == definition.value.1 || (definition.value.0, end) in uses)
    ensures Confined(f, Interval(definition.value.0, definition.value.1, end, t))
  {
    hide Dedicated;
    var (block, start) := definition.value;
    forall b: nat, p: nat | DefAt(f, t, b, p)
      ensures b == block && p == start
    {
      var s: Site := (b, p);
      assert Earlier(s, |f.blocks|, 0) && DefAt(f, t, s.0, s.1);
    }
    forall b: nat, p: nat | UseAt(f, t, b, p)
      ensures b == block && start < p <= end
    {
      var s: Site := (b, p);
      assert Earlier(s, |f.blocks|, 0) && UseAt(f, t, s.0, s.1);
    }
    if end != start {
      var s: Site := (block, end);
      assert s in uses;
    }
  }

  /** The span of t, if it is confined. */
  method SpanOf(f: Func, t: Temp, dedicated: bool, definition: Option<Site>, repeated: bool, uses: seq<Site>)
    returns (r: Option<Interval>)
    requires t < |f.types| && (dedicated <==> Dedicated(f, t))
    requires Noted(f, t, |f.blocks|, 0, definition, repeated, uses)
    ensures r.Some? ==> r.value.temp == t && Confined(f, r.value)
    ensures r.None? ==> forall i: Interval :: i.temp == t ==> !Confined(f, i)
  {
    forall i: Interval | i.temp == t && Confined(f, i)
      ensures !dedicated && !repeated && definition == Some((i.block, i.start))
      ensures forall s: Site :: s in uses ==> s.0 == i.block && i.start < s.1 <= i.end
    {
      NoSpan(f, t, definition, repeated, uses, i);
    }
    hide Dedicated, Noted, Confined;
    if dedicated || repeated || definition.None? {
      return None;
    }
    var (block, start) := definition.value;
    var end := start;
    for k := 0 to |uses|
      invariant start <= end
      invariant forall j :: 0 <= j < k ==> uses[j].0 == block && start < uses[j].1 <= end
      invariant end == start || (block, end) in uses
    {
      if uses[k].0 != block || uses[k].1 <= start {
        assert uses[k] in uses;
        return None;
      }
      if end < uses[k].1 {
        end := uses[k].1;
        assert (block, end) == uses[k];
      }
    }
    IsSpan(f, t, definition, uses, end);
    return Some(Interval(block, start, end, t));
  }

  ghost predicate Shareable(f: Func, eligible: set<Temp>, t: Temp) {
    t in eligible && exists i: Interval :: i.temp == t && Confined(f, i)
  }

  /** The spans of exactly the shareable temporaries among the first n. */
  ghost predicate Found(f: Func, eligible: set<Temp>, n: nat, intervals: seq<Interval>) {
    && Spans(f, intervals)
    && (forall k :: 0 <= k < |intervals| ==> intervals[k].temp < n)
    && forall t: nat :: t < n ==> (Listed(intervals, t) <==> Shareable(f, eligible, t))
  }

  method FindSpans(f: Func, eligible: set<Temp>) returns (intervals: seq<Interval>)
    requires WellFormed(f)
    ensures Found(f, eligible, |f.types|, intervals)
  {
    var definitions, repeated, uses := Walk(f);
    var dedicated := FindDedicated(f);
    intervals := [];
    for t := 0 to |f.types|
      invariant Found(f, eligible, t, intervals)
    {
      assert Noted(f, t, |f.blocks|, 0, definitions[t], repeated[t], uses[t]);
      ghost var was := intervals;
      if t in eligible {
        var span := SpanOf(f, t, dedicated[t], definitions[t], repeated[t], uses[t]);
        if span.Some? {
          assert Shareable(f, eligible, t);
          intervals := intervals + [span.value];
          FoundMore(f, eligible, t, was, span.value);
        } else {
          FoundNone(f, eligible, t, intervals);
        }
      } else {
        FoundNone(f, eligible, t, intervals);
      }
    }
  }

  lemma FoundMore(f: Func, eligible: set<Temp>, t: nat, intervals: seq<Interval>, i: Interval)
    requires Found(f, eligible, t, intervals) && i.temp == t && Confined(f, i) && Shareable(f, eligible, t)
    ensures Found(f, eligible, t + 1, intervals + [i])
  {
    hide Confined, Shareable;
    var more := intervals + [i];
    assert more[|intervals|] == i;
    forall u: nat | u < t
      ensures Listed(more, u) <==> Listed(intervals, u)
    {
      if Listed(intervals, u) {
        var k := IndexOf(intervals, u);
        assert more[k].temp == u;
      }
    }
  }

  lemma FoundNone(f: Func, eligible: set<Temp>, t: nat, intervals: seq<Interval>)
    requires Found(f, eligible, t, intervals) && !Shareable(f, eligible, t)
    ensures Found(f, eligible, t + 1, intervals)
  {
    hide Confined, Shareable;
  }

  // ---- order ----

  ghost predicate Distinct(s: seq<Interval>) {
    forall j, k :: 0 <= j < k < |s| ==> s[j].temp != s[k].temp
  }

  function Insert(i: Interval, s: seq<Interval>): (r: seq<Interval>)
    ensures |r| == |s| + 1 && forall x :: x in r <==> x == i || x in s
  {
    if s == [] then [i]
    else if Before(i, s[0]) then [i] + s
    else
      assert forall x :: x in s <==> x == s[0] || x in s[1..];
      [s[0]] + Insert(i, s[1..])
  }

  function Sort(s: seq<Interval>): (r: seq<Interval>)
    ensures |r| == |s| && forall x :: x in r <==> x in s
  {
    if s == [] then []
    else
      assert forall x :: x in s <==> x == s[0] || x in s[1..];
      Insert(s[0], Sort(s[1..]))
  }

  lemma {:induction false} InsertKeeps(i: Interval, s: seq<Interval>)
    requires Ordered(s) && Distinct(s) && forall k :: 0 <= k < |s| ==> s[k].temp != i.temp
    ensures Ordered(Insert(i, s)) && Distinct(Insert(i, s))
  {
    if s != [] && !Before(i, s[0]) {
      InsertKeeps(i, s[1..]);
      var r := Insert(i, s[1..]);
      forall k | 0 <= k < |r|
        ensures Before(s[0], r[k]) && s[0].temp != r[k].temp
      {
        assert r[k] in r;
        if r[k] != i {
          var q :| 0 <= q < |s[1..]| && s[1..][q] == r[k];
          assert s[q + 1] == r[k];
        }
      }
    }
  }

  lemma {:induction false} SortKeeps(s: seq<Interval>)
    requires Distinct(s)
    ensures Ordered(Sort(s)) && Distinct(Sort(s))
  {
    if s != [] {
      SortKeeps(s[1..]);
      var r := Sort(s[1..]);
      forall k | 0 <= k < |r|
        ensures r[k].temp != s[0].temp
      {
        assert r[k] in r;
        var q :| 0 <= q < |s[1..]| && s[1..][q] == r[k];
        assert s[q + 1] == r[k];
      }
      InsertKeeps(s[0], r);
    }
  }

  // ---- assignment ----

  /** A slot: what it stores, until where in which block it is taken, and its first temporary. */
  datatype Slot = Slot(ty: nat, owner: nat, lastUse: nat, rep: Temp)

  /** Interval i may move into the slot. */
  predicate Open(s: Slot, ty: nat, i: Interval) {
    s.ty == ty && (s.owner != i.block || s.lastUse < i.start)
  }

  method FirstOpen(slots: seq<Slot>, ty: nat, i: Interval) returns (q: nat)
    ensures q <= |slots| && (q < |slots| ==> Open(slots[q], ty, i))
    ensures forall k :: 0 <= k < q ==> !Open(slots[k], ty, i)
  {
    q := 0;
    while q < |slots| && !Open(slots[q], ty, i)
      invariant q <= |slots| && forall k :: 0 <= k < q ==> !Open(slots[k], ty, i)
    {
      q := q + 1;
    }
  }

  /** Interval i lives in the slot. */
  ghost predicate Housed(f: Func, i: Interval, reps: Slots, s: Slot) {
    && i.temp < |reps| == |f.types| && reps[i.temp] == s.rep && f.types[i.temp] == s.ty
    && (i.block < s.owner || (i.block == s.owner && i.end <= s.lastUse))
  }

  /** Each of the first k spans lives in its home. */
  ghost predicate Housing(f: Func, intervals: seq<Interval>, reps: Slots, slots: seq<Slot>, home: seq<nat>) {
    && |home| <= |intervals|
    && forall j :: 0 <= j < |home| ==> home[j] < |slots| && Housed(f, intervals[j], reps, slots[home[j]])
  }

  /** Slots are named after distinct spans already placed, of the slot's type. */
  ghost predicate Named(f: Func, done: seq<Interval>, slots: seq<Slot>) {
    && (forall q :: 0 <= q < |slots| ==> slots[q].rep < |f.types| && f.types[slots[q].rep] == slots[q].ty)
    && (forall q :: 0 <= q < |slots| ==> Listed(done, slots[q].rep))
    && (forall p, q :: 0 <= p < q < |slots| ==> slots[p].rep != slots[q].rep)
  }

  /** No slot is owned by a block after those still to come. */
  ghost predicate Owned(intervals: seq<Interval>, k: nat, slots: seq<Slot>) {
    forall q, j :: 0 <= q < |slots| && k <= j < |intervals| ==> slots[q].owner <= intervals[j].block
  }

  /** The table after the first k spans; `home` tells each one's slot. */
  ghost predicate Settled(f: Func, intervals: seq<Interval>, k: nat, reps: Slots, slots: seq<Slot>, home: seq<nat>) {
    && k == |home| <= |intervals|
    && Housing(f, intervals, reps, slots, home) && Named(f, intervals[..k], slots) && Owned(intervals, k, slots)
    && Safe(f, intervals[..k], reps)
  }

  lemma ListedMore(s: seq<Interval>, i: Interval, t: Temp)
    ensures Listed(s + [i], t) <==> Listed(s, t) || t == i.temp
  {
    assert (s + [i])[|s|] == i;
    if Listed(s, t) {
      var k := IndexOf(s, t);
      assert (s + [i])[k].temp == t;
    }
  }

  /** One more span, stored with r: safe when r's type agrees and it is apart from the spans there. */
  lemma SafeMore(f: Func, done: seq<Interval>, i: Interval, reps: Slots, r: Temp)
    requires Safe(f, done, reps) && Distinct(done + [i]) && i.temp < |reps|
    requires r < |reps| && f.types[r] == f.types[i.temp] && (r == i.temp || Listed(done, r))
    requires forall j :: 0 <= j < |done| && done[j].temp < |reps| && reps[done[j].temp] == r ==> Disjoint(done[j], i)
    ensures Safe(f, done + [i], reps[i.temp := r])
  {
    hide Disjoint, Listed;
    var more, reps' := done + [i], reps[i.temp := r];
    forall t: nat
      ensures Listed(more, t) <==> Listed(done, t) || t == i.temp
    {
      ListedMore(done, i, t);
    }
    forall j | 0 <= j < |done|
      ensures done[j].temp != i.temp && more[j] == done[j]
    {
      assert more[j].temp != more[|done|].temp;
    }
  }

  lemma SpanParts(f: Func, intervals: seq<Interval>, k: nat)
    requires Spans(f, intervals) && k < |intervals|
    ensures intervals[k].temp < |f.types| && intervals[k].start <= intervals[k].end
    ensures intervals[..k + 1] == intervals[..k] + [intervals[k]] && Distinct(intervals[..k] + [intervals[k]])
    ensures forall j :: 0 <= j < k ==> intervals[j].temp != intervals[k].temp
  {
    assert Confined(f, intervals[k]);
    hide Confined;
  }

  lemma OwnedMore(intervals: seq<Interval>, k: nat, slots: seq<Slot>, slots': seq<Slot>)
    requires Owned(intervals, k, slots) && Ordered(intervals) && k < |intervals|
    requires forall q :: 0 <= q < |slots'| ==>
               slots'[q].owner == intervals[k].block || (q < |slots| && slots'[q].owner == slots[q].owner)
    ensures Owned(intervals, k + 1, slots')
  {
    forall q, j | 0 <= q < |slots'| && k + 1 <= j < |intervals|
      ensures slots'[q].owner <= intervals[j].block
    {
      assert Before(intervals[k], intervals[j]);
    }
  }

  lemma NamedMore(f: Func, done: seq<Interval>, i: Interval, slots: seq<Slot>, slots': seq<Slot>)
    requires Named(f, done, slots) && i.temp < |f.types| && !Listed(done, i.temp)
    requires |slots'| == |slots| || (|slots'| == |slots| + 1 && slots'[|slots|].rep == i.temp
                                     && slots'[|slots|].ty == f.types[i.temp])
    requires forall q :: 0 <= q < |slots| ==> slots'[q].rep == slots[q].rep && slots'[q].ty == slots[q].ty
    ensures Named(f, done + [i], slots')
  {
    hide Listed;
    forall q | 0 <= q < |slots'|
      ensures Listed(done + [i], slots'[q].rep)
    {
      ListedMore(done, i, slots'[q].rep);
    }
  }

  /** Spans in a slot stay housed when it passes to a later block or to a later span. */
  lemma HousingMore(f: Func, intervals: seq<Interval>, reps: Slots, slots: seq<Slot>, home: seq<nat>,
                    reps': Slots, slots': seq<Slot>, q: nat)
    requires Housing(f, intervals, reps, slots, home) && |home| < |intervals| && q < |slots'|
    requires Housed(f, intervals[|home|], reps', slots'[q])
    requires |slots| <= |slots'| && |reps'| == |reps|
    requires forall t :: 0 <= t < |reps| && t != intervals[|home|].temp ==> reps'[t] == reps[t]
    requires forall j :: 0 <= j < |home| ==> intervals[j].temp != intervals[|home|].temp
    requires forall p :: 0 <= p < |slots| ==>
              slots'[p] == slots[p] || (p == q && Passed(slots[p], slots'[p], intervals[|home|]))
    ensures Housing(f, intervals, reps', slots', home + [q])
  {
    var home' := home + [q];
    forall j | 0 <= j < |home'|
      ensures home'[j] < |slots'| && Housed(f, intervals[j], reps', slots'[home'[j]])
    {
      if j < |home| {
        assert Housed(f, intervals[j], reps, slots[home[j]]);
      }
    }
  }

  /** The slot goes to span i, which starts after the slot's last use in that block. */
  ghost predicate Passed(s: Slot, s': Slot, i: Interval) {
    && s'.rep == s.rep && s'.ty == s.ty && s'.owner == i.block && s'.lastUse == i.end && i.start <= i.end
    && s.owner <= i.block && (s.owner == i.block ==> s.lastUse < i.start)
  }

  lemma Reuse(f: Func, intervals: seq<Interval>, k: nat, reps: Slots, slots: seq<Slot>, home: seq<nat>, q: nat)
    requires Settled(f, intervals, k, reps, slots, home) && Spans(f, intervals) && Ordered(intervals)
    requires k < |intervals| && q < |slots| && intervals[k].temp < |f.types| == |reps|
    requires Open(slots[q], f.types[intervals[k].temp], intervals[k])
    ensures var i := intervals[k];
            Settled(f, intervals, k + 1, reps[i.temp := slots[q].rep],
                    slots[q := slots[q].(owner := i.block, lastUse := i.end)], home + [q])
  {
    hide Confined, Safe, Ordered, Housing, Listed;
    var i := intervals[k];
    var slots' := slots[q := slots[q].(owner := i.block, lastUse := i.end)];
    var reps' := reps[i.temp := slots[q].rep];
    SpanParts(f, intervals, k);
    FreshOwn(f, intervals, k, reps);
    assert Passed(slots[q], slots'[q], i);
    assert Housed(f, i, reps', slots'[q]);
    HousingMore(f, intervals, reps, slots, home, reps', slots', q);
    NamedMore(f, intervals[..k], i, slots, slots');
    OwnedMore(intervals, k, slots, slots');
    ReuseApart(f, intervals, k, reps, slots, home, q);
    SafeMore(f, intervals[..k], i, reps, slots[q].rep);
  }

  /** The spans already in an open slot end before the new one starts. */
  lemma ReuseApart(f: Func, intervals: seq<Interval>, k: nat, reps: Slots, slots: seq<Slot>, home: seq<nat>, q: nat)
    requires k == |home| < |intervals| && q < |slots|
    requires Housing(f, intervals, reps, slots, home) && Owned(intervals, k, slots) && Named(f, intervals[..k], slots)
    requires intervals[k].temp < |f.types| && Open(slots[q], f.types[intervals[k].temp], intervals[k])
    ensures forall j :: 0 <= j < k && intervals[j].temp < |reps| && reps[intervals[j].temp] == slots[q].rep ==>
              Disjoint(intervals[j], intervals[k])
  {
    hide Listed;
    forall j | 0 <= j < k && intervals[j].temp < |reps| && reps[intervals[j].temp] == slots[q].rep
      ensures Disjoint(intervals[j], intervals[k])
    {
      assert Housed(f, intervals[j], reps, slots[home[j]]);
      assert home[j] == q;
      assert slots[q].owner <= intervals[k].block;
    }
  }

  lemma Fresh(f: Func, intervals: seq<Interval>, k: nat, reps: Slots, slots: seq<Slot>, home: seq<nat>)
    requires Settled(f, intervals, k, reps, slots, home) && Spans(f, intervals) && Ordered(intervals)
    requires k < |intervals| && intervals[k].temp < |f.types| == |reps|
    ensures var i := intervals[k];
            Settled(f, intervals, k + 1, reps, slots + [Slot(f.types[i.temp], i.block, i.end, i.temp)],
                    home + [|slots|])
  {
    hide Confined, Safe, Ordered, Housing, Listed;
    var i := intervals[k];
    var slots' := slots + [Slot(f.types[i.temp], i.block, i.end, i.temp)];
    SpanParts(f, intervals, k);
    FreshOwn(f, intervals, k, reps);
    assert Housed(f, i, reps, slots'[|slots|]);
    HousingMore(f, intervals, reps, slots, home, reps, slots', |slots|);
    NamedMore(f, intervals[..k], i, slots, slots');
    OwnedMore(intervals, k, slots, slots');
    SafeMore(f, intervals[..k], i, reps, i.temp);
    assert reps[i.temp := i.temp] == reps;
  }

  /** A span not yet placed still has its own slot, which no other span uses. */
  lemma FreshOwn(f: Func, intervals: seq<Interval>, k: nat, reps: Slots)
    requires k < |intervals| && intervals[k].temp < |f.types|
    requires Safe(f, intervals[..k], reps) && Spans(f, intervals)
    ensures |reps| == |f.types| && reps[intervals[k].temp] == intervals[k].temp
    ensures !Listed(intervals[..k], intervals[k].temp)
    ensures forall j :: 0 <= j < k && intervals[..k][j].temp < |reps| ==>
              reps[intervals[..k][j].temp] != intervals[k].temp
  {
    hide Confined;
    var done := intervals[..k];
    assert forall j :: 0 <= j < k ==> done[j].temp != intervals[k].temp;
    forall j | 0 <= j < k && done[j].temp < |reps|
      ensures reps[done[j].temp] != intervals[k].temp
    {
      assert Listed(done, reps[done[j].temp]);
    }
  }

  lemma SettledStart(f: Func, intervals: seq<Interval>)
    ensures Settled(f, intervals, 0, Identity(|f.types|), [], [])
  {
    assert intervals[..0] == [];
  }

  lemma SettledParts(f: Func, intervals: seq<Interval>, k: nat, reps: Slots, slots: seq<Slot>, home: seq<nat>)
    requires Settled(f, intervals, k, reps, slots, home)
    ensures |reps| == |f.types| && Safe(f, intervals[..k], reps)
    ensures Housing(f, intervals, reps, slots, home) && Named(f, intervals[..k], slots)
  {
  }

  // ---- first fit ----

  /** The slot was last taken by one of the spans in it, and is named after the first. */
  ghost predicate SlotNoted(intervals: seq<Interval>, home: seq<nat>, q: nat, s: Slot)
    requires |home| <= |intervals|
  {
    && (exists l :: 0 <= l < |home| && home[l] == q && intervals[l].block == s.owner && intervals[l].end == s.lastUse)
    && (exists l :: 0 <= l < |home| && FirstIn(home, l, q) && intervals[l].temp == s.rep)
  }

  ghost predicate FirstIn(home: seq<nat>, l: nat, q: nat)
    requires l < |home|
  {
    home[l] == q && forall i :: 0 <= i < l ==> home[i] != q
  }

  ghost predicate SlotsNoted(intervals: seq<Interval>, home: seq<nat>, slots: seq<Slot>) {
    && |home| <= |intervals| && (forall l :: 0 <= l < |home| ==> home[l] < |slots|)
    && forall q :: 0 <= q < |slots| ==> SlotNoted(intervals, home, q, slots[q])
  }

  lemma NotedMore(intervals: seq<Interval>, home: seq<nat>, slots: seq<Slot>, slots': seq<Slot>, q: nat)
    requires SlotsNoted(intervals, home, slots) && |home| < |intervals| && q < |slots'| && |slots| <= |slots'|
    requires q <= |slots| && |slots'| == (if q < |slots| then |slots| else |slots| + 1)
    requires forall p :: 0 <= p < |slots| && p != q ==> slots'[p] == slots[p]
    requires slots'[q].owner == intervals[|home|].block && slots'[q].lastUse == intervals[|home|].end
    requires slots'[q].rep == if q < |slots| then slots[q].rep else intervals[|home|].temp
    ensures SlotsNoted(intervals, home + [q], slots')
  {
    var n, home' := |home|, home + [q];
    assert home'[n] == q && forall l :: 0 <= l < n ==> home'[l] == home[l];
    forall p | 0 <= p < |slots'| ensures SlotNoted(intervals, home', p, slots'[p]) {
      if p < |slots| {
        assert SlotNoted(intervals, home, p, slots[p]);
        var l :| 0 <= l < n && FirstIn(home, l, p) && intervals[l].temp == slots[p].rep;
        assert FirstIn(home', l, p);
        if p != q {
          var e :| 0 <= e < n && home[e] == p && intervals[e].block == slots[p].owner
                   && intervals[e].end == slots[p].lastUse;
          assert home'[e] == p;
        }
      } else {
        assert FirstIn(home', n, p);
      }
    }
  }

  /** A slot that is not open to a span of its type is taken where the span starts. */
  lemma ClosedBusy(f: Func, intervals: seq<Interval>, reps: Slots, slots: seq<Slot>, home: seq<nat>, q: nat, j: nat)
    requires Housing(f, intervals, reps, slots, home) && SlotsNoted(intervals, home, slots) && |home| < |intervals|
    requires j < |home| && SameType(f, intervals[j], intervals[|home|])
    requires !Open(slots[home[j]], f.types[intervals[|home|].temp], intervals[|home|])
    ensures Busy(intervals, home + [q], home[j], |home|)
  {
    var n, p := |home|, home[j];
    assert Housed(f, intervals[j], reps, slots[p]);
    assert SlotNoted(intervals, home, p, slots[p]);
    var e :| 0 <= e < n && home[e] == p && intervals[e].block == slots[p].owner && intervals[e].end == slots[p].lastUse;
    assert (home + [q])[e] == p;
  }

  lemma BusyMore(intervals: seq<Interval>, home: seq<nat>, q: nat, p: nat, k: nat)
    requires k < |home| < |intervals| && Busy(intervals, home, p, k)
    ensures Busy(intervals, home + [q], p, k)
  {
    var i :| 0 <= i < k && home[i] == p && intervals[i].block == intervals[k].block
             && intervals[k].start <= intervals[i].end;
    assert (home + [q])[i] == p;
  }

  /** The next span has slot q: the first one open to it, or a new one. */
  ghost predicate NextHome(f: Func, intervals: seq<Interval>, reps: Slots, slots: seq<Slot>, home: seq<nat>, q: nat) {
    && FirstFit(f, intervals, home) && Housing(f, intervals, reps, slots, home) && SlotsNoted(intervals, home, slots)
    && |home| < |intervals| && q <= |slots| && intervals[|home|].temp < |f.types|
    && (forall p :: 0 <= p < q ==> !Open(slots[p], f.types[intervals[|home|].temp], intervals[|home|]))
    && (q < |slots| ==> Open(slots[q], f.types[intervals[|home|].temp], intervals[|home|]))
  }

  lemma BusyPair(f: Func, intervals: seq<Interval>, reps: Slots, slots: seq<Slot>, home: seq<nat>, q: nat,
                 j: nat, k: nat)
    requires NextHome(f, intervals, reps, slots, home, q) && j <= |home| && k <= |home|
    requires (home + [q])[j] < (home + [q])[k] && SameType(f, intervals[j], intervals[k])
    ensures Busy(intervals, home + [q], (home + [q])[j], k)
  {
    hide Busy, Open, Housed, SlotNoted;
    if k == |home| {
      ClosedBusy(f, intervals, reps, slots, home, q, j);
    } else if j < |home| {
      BusyMore(intervals, home, q, home[j], k);
    } else {
      BusyBefore(f, intervals, reps, slots, home, q, k);
      BusyMore(intervals, home, q, q, k);
    }
  }

  lemma HomeBefore(f: Func, intervals: seq<Interval>, reps: Slots, slots: seq<Slot>, home: seq<nat>, q: nat, k: nat)
    requires NextHome(f, intervals, reps, slots, home, q) && k <= |home| && (home + [q])[k] > 0
    ensures exists j :: 0 <= j < k && (home + [q])[j] == (home + [q])[k] - 1
  {
    hide Busy, Open, Housing;
    if k < |home| {
      var j :| 0 <= j < k && home[j] == home[k] - 1;
      assert (home + [q])[j] == home[k] - 1;
    } else {
      assert SlotNoted(intervals, home, q - 1, slots[q - 1]);
      var l :| 0 <= l < |home| && home[l] == q - 1;
      assert (home + [q])[l] == q - 1;
    }
  }

  lemma RoomLeft(f: Func, intervals: seq<Interval>, reps: Slots, slots: seq<Slot>, home: seq<nat>, q: nat)
    requires NextHome(f, intervals, reps, slots, home, q)
    ensures |home| < |intervals|
  {
  }

  lemma FirstFitMore(f: Func, intervals: seq<Interval>, reps: Slots, slots: seq<Slot>, home: seq<nat>, q: nat)
    requires NextHome(f, intervals, reps, slots, home, q)
    ensures FirstFit(f, intervals, home + [q])
  {
    hide Busy, SameType, NextHome;
    RoomLeft(f, intervals, reps, slots, home, q);
    var n, home' := |home|, home + [q];
    forall j, k | 0 <= j <= n && 0 <= k <= n
      ensures home'[j] < home'[k] && SameType(f, intervals[j], intervals[k]) ==> Busy(intervals, home', home'[j], k)
    {
      if home'[j] < home'[k] && SameType(f, intervals[j], intervals[k]) {
        BusyPair(f, intervals, reps, slots, home, q, j, k);
      }
    }
    forall k | 0 <= k <= n && home'[k] > 0 ensures exists j :: 0 <= j < k && home'[j] == home'[k] - 1 {
      HomeBefore(f, intervals, reps, slots, home, q, k);
    }
  }

  /** What an earlier span of a slot says about the spans in later slots. */
  lemma BusyBefore(f: Func, intervals: seq<Interval>, reps: Slots, slots: seq<Slot>, home: seq<nat>, q: nat, k: nat)
    requires FirstFit(f, intervals, home) && Housing(f, intervals, reps, slots, home)
    requires SlotsNoted(intervals, home, slots) && |home| < |intervals| && k < |home| && q < home[k]
    requires SameType(f, intervals[|home|], intervals[k])
    requires q < |slots| ==> Open(slots[q], f.types[intervals[|home|].temp], intervals[|home|])
    ensures Busy(intervals, home, q, k)
  {
    hide Busy;
    assert SlotNoted(intervals, home, q, slots[q]);
    var l :| 0 <= l < |home| && home[l] == q;
    assert Housed(f, intervals[l], reps, slots[q]);
  }

  /** The table tells the homes. */
  lemma HomesTold(f: Func, intervals: seq<Interval>, reps: Slots, slots: seq<Slot>, home: seq<nat>, done: seq<Interval>)
    requires Housing(f, intervals, reps, slots, home) && Named(f, done, slots) && SlotsNoted(intervals, home, slots)
    ensures InHomes(intervals, reps, home)
  {
    hide Listed;
    forall j, k | 0 <= j <= k < |home|
      ensures home[j] == home[k] <==> reps[intervals[j].temp] == reps[intervals[k].temp]
      ensures home[j] == home[k] && (forall i :: 0 <= i < j ==> home[i] != home[j]) ==>
                reps[intervals[k].temp] == intervals[j].temp
    {
      assert Housed(f, intervals[j], reps, slots[home[j]]) && Housed(f, intervals[k], reps, slots[home[k]]);
      FirstNamed(intervals, home, slots, j);
    }
    forall k | 0 <= k < |home| ensures intervals[k].temp < |reps| {
      assert Housed(f, intervals[k], reps, slots[home[k]]);
    }
  }

  lemma FirstNamed(intervals: seq<Interval>, home: seq<nat>, slots: seq<Slot>, j: nat)
    requires SlotsNoted(intervals, home, slots) && j < |home|
    ensures FirstIn(home, j, home[j]) ==> slots[home[j]].rep == intervals[j].temp
  {
    var q := home[j];
    assert SlotNoted(intervals, home, q, slots[q]);
    var l :| 0 <= l < |home| && FirstIn(home, l, q) && intervals[l].temp == slots[q].rep;
  }

  /** The greedy assignment in span order: each span goes to the first home that is free where it starts. */
  method Assign(f: Func, intervals: seq<Interval>) returns (reps: Slots, ghost home: seq<nat>)
    requires Spans(f, intervals) && Ordered(intervals)
    ensures Safe(f, intervals, reps)
    ensures |home| == |intervals| && FirstFit(f, intervals, home) && InHomes(intervals, reps, home)
  {
    hide Settled, Spans, Ordered, Safe, Open, FirstFit, InHomes, SlotsNoted;
    reps := Identity(|f.types|);
    var slots: seq<Slot> := [];
    home := [];
    SettledStart(f, intervals);
    NoHomes(f, intervals);
    for k := 0 to |intervals|
      invariant |home| == k && Settled(f, intervals, k, reps, slots, home)
      invariant FirstFit(f, intervals, home) && SlotsNoted(intervals, home, slots)
    {
      var i := intervals[k];
      SpanParts(f, intervals, k);
      SettledParts(f, intervals, k, reps, slots, home);
      var ty := f.types[i.temp];
      var q := FirstOpen(slots, ty, i);
      FirstFitMore(f, intervals, reps, slots, home, q);
      if q < |slots| {
        Reuse(f, intervals, k, reps, slots, home, q);
        ghost var was := slots;
        reps := reps[i.temp := slots[q].rep];
        slots := slots[q := slots[q].(owner := i.block, lastUse := i.end)];
        NotedMore(intervals, home, was, slots, q);
      } else {
        Fresh(f, intervals, k, reps, slots, home);
        ghost var was := slots;
        slots := slots + [Slot(ty, i.block, i.end, i.temp)];
        NotedMore(intervals, home, was, slots, q);
      }
      home := home + [q];
    }
    SettledParts(f, intervals, |intervals|, reps, slots, home);
    HomesTold(f, intervals, reps, slots, home, intervals[..|intervals|]);
    assert intervals[..|intervals|] == intervals;
  }

  lemma NoHomes(f: Func, intervals: seq<Interval>)
    ensures FirstFit(f, intervals, []) && SlotsNoted(intervals, [], [])
  {
  }

  lemma SortedFound(f: Func, eligible: set<Temp>, n: nat, intervals: seq<Interval>)
    requires Found(f, eligible, n, intervals)
    ensures Found(f, eligible, n, Sort(intervals)) && Ordered(Sort(intervals))
  {
    hide Confined, Shareable, Sort;
    SortKeeps(intervals);
    var r := Sort(intervals);
    forall k | 0 <= k < |r|
      ensures Confined(f, r[k]) && r[k].temp < n
    {
      assert r[k] in intervals;
    }
    forall t: nat
      ensures Listed(r, t) <==> Listed(intervals, t)
    {
      if Listed(r, t) {
        var k := IndexOf(r, t);
        assert r[k] in intervals;
      }
      if Listed(intervals, t) {
        var k := IndexOf(intervals, t);
        assert intervals[k] in r;
      }
    }
  }

  /** Exactly the shareable temporaries may share, and their sharing is safe. */
  ghost predicate Planned(f: Func, eligible: set<Temp>, slots: Slots) {
    exists intervals: seq<Interval> :: Found(f, eligible, |f.types|, intervals) && Safe(f, intervals, slots)
  }

  /** The shareable temporaries and their sharing by first fit, which uses as few slots of each type as any
      safe sharing of them. */
  ghost predicate BestPlan(f: Func, eligible: set<Temp>, intervals: seq<Interval>, slots: Slots, home: seq<nat>) {
    && Found(f, eligible, |f.types|, intervals) && Ordered(intervals) && Safe(f, intervals, slots)
    && |home| == |intervals| && FirstFit(f, intervals, home) && InHomes(intervals, slots, home)
    && forall other: Slots, ty: nat :: Safe(f, intervals, other) ==> NoMore(f, intervals, slots, other, ty)
  }

  ghost predicate NoMore(f: Func, intervals: seq<Interval>, slots: Slots, other: Slots, ty: nat)
    requires Safe(f, intervals, slots) && Safe(f, intervals, other)
  {
    |SlotsOf(f, intervals, slots, ty)| <= |SlotsOf(f, intervals, other, ty)|
  }

  /** The whole assignment. */
  method BlockLocalTempSlots(f: Func, eligible: set<Temp>)
    returns (slots: Slots, ghost intervals: seq<Interval>, ghost home: seq<nat>)
    requires WellFormed(f)
    ensures Planned(f, eligible, slots) && BestPlan(f, eligible, intervals, slots, home)
  {
    hide Found, Safe, Spans, Ordered, FirstFit, InHomes, SlotsOf;
    var found := FindSpans(f, eligible);
    SortedFound(f, eligible, |f.types|, found);
    var sorted := Sort(found);
    intervals := sorted;
    assert Spans(f, sorted) by { FoundSpans(f, eligible, |f.types|, sorted); }
    slots, home := Assign(f, sorted);
    SpansForward(f, sorted);
    forall other: Slots, ty: nat | Safe(f, intervals, other) ensures NoMore(f, intervals, slots, other, ty) {
      Fewest(f, intervals, slots, home, other, ty);
    }
  }

  lemma SpansForward(f: Func, intervals: seq<Interval>)
    requires Spans(f, intervals)
    ensures Forward(intervals)
  {
    hide DefAt, UseAt, Dedicated;
  }

  lemma FoundSpans(f: Func, eligible: set<Temp>, n: nat, intervals: seq<Interval>)
    requires Found(f, eligible, n, intervals)
    ensures Spans(f, intervals)
  {
  }

  /** From the start of any block, the shared storage shows every run the same operands. */
  lemma SharedRun(f: Func, eligible: set<Temp>, slots: Slots, compute: Compute, decide: Decide,
                  b: nat, env: seq<Value>, w: World, fuel: nat)
    requires WellFormed(f) && Planned(f, eligible, slots) && |env| == |f.types|
    ensures |slots| == |f.types| && Below(slots, |slots|)
    ensures Run(f, slots, compute, decide, b, 0, env, w, fuel)
            == Run(f, Identity(|slots|), compute, decide, b, 0, env, w, fuel)
  {
    hide Safe, Spans, Found, Run;
    var intervals: seq<Interval> :| Found(f, eligible, |f.types|, intervals) && Safe(f, intervals, slots);
    FoundSpans(f, eligible, |f.types|, intervals);
    SlotsFit(f, intervals, slots);
    SameRun(f, intervals, slots, compute, decide, b, 0, env, env, w, fuel);
  }

  lemma SlotsFit(f: Func, intervals: seq<Interval>, slots: Slots)
    requires Safe(f, intervals, slots)
    ensures |slots| == |f.types| && Below(slots, |slots|)
  {
  }
}
